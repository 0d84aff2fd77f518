/** What the freestanding printf of printf.c computes, stated as functions:
    how the scanner cuts the format string into pieces, the text of each
    piece, the length budget, the output sink and the whole call. The
    imperative model in module Printf is proved to compute these. */
module FormatSpec {
  import opened CTypes
  import opened Decimal

  /** One variadic argument, tagged with the type the directive reads it
      as: `%s` reads a C string; `%c`, `%d` and `%i` read an int. */
  datatype Arg = StrArg(s: seq<char>) | IntArg(i: int)

  /** The entries of the `formatters` table. */
  datatype Formatter = FormatC | FormatS | FormatD | FormatDefault

  /** `formatter_ids` and `formatters` (printf.c:28-43): the lookup runs
      over the four ids and lands on the extra fifth entry when none matches. */
  const FormatterIds: seq<char> := ['c', 's', 'i', 'd']
  const Formatters: seq<Formatter> := [FormatC, FormatS, FormatD, FormatD, FormatDefault]

  /** The formatter a directive character selects. */
  function Selected(c: char): Formatter
  {
    if c == 'c' then FormatC
    else if c == 's' then FormatS
    else if c == 'i' || c == 'd' then FormatD
    else FormatDefault
  }

  // ---------------------------------------------------------------------
  // Cutting the format string into pieces

  /** The first index at or after j holding '%' or the terminator: where a
      literal run that continues at j ends. */
  function RunEnd(fmt: seq<char>, j: nat): (e: nat)
    ensures j <= e
    ensures e == j || e <= |fmt|
    ensures forall k :: j <= k < e ==> k < |fmt| && fmt[k] != '%' && fmt[k] != '\0'
    ensures At(fmt, e) == '%' || At(fmt, e) == '\0'
    decreases |fmt| - j
  {
    if At(fmt, j) == '%' || At(fmt, j) == '\0' then j
    else
      var e := RunEnd(fmt, j + 1);
      assert j < |fmt| && fmt[j] != '%' && fmt[j] != '\0';
      e
  }

  /** The test of printf.c:180: the cursor starts a literal run, either a
      plain character or the escape "%%". */
  predicate StartsLiteral(fmt: seq<char>, pos: nat)
  {
    At(fmt, pos) != '%' || At(fmt, pos + 1) == '%'
  }

  /** What the scanner does at pos: copy fmt[start..end] (printf.c:180-197),
      or hand the directive to a formatter (printf.c:199-201). */
  datatype Piece = Literal(start: nat, end: nat) | Directive(f: Formatter)

  function PieceAt(fmt: seq<char>, pos: nat): (p: Piece)
    requires At(fmt, pos) != '\0'
    ensures p.Literal? ==> pos <= p.start < p.end <= |fmt|
    ensures p.Directive? ==> pos + 1 < |fmt| || p.f == FormatDefault
  {
    if StartsLiteral(fmt, pos) then
      var start := if At(fmt, pos) == '%' then pos + 1 else pos;
      Literal(start, RunEnd(fmt, start + 1))
    else
      Directive(Selected(At(fmt, pos + 1)))
  }

  /** Where the cursor stands after the piece at pos has been printed. */
  function NextPos(fmt: seq<char>, pos: nat): (n: nat)
    requires At(fmt, pos) != '\0'
    ensures pos < n <= |fmt|
  {
    match PieceAt(fmt, pos)
    case Literal(_, e) => e
    case Directive(f) => if f == FormatDefault then pos + Strlen(fmt, pos) else pos + 2
  }

  /** The number of arguments the piece at pos consumes. */
  function Uses(fmt: seq<char>, pos: nat): (n: nat)
    requires At(fmt, pos) != '\0'
    ensures n <= 1
  {
    var p := PieceAt(fmt, pos);
    if p.Directive? && p.f != FormatDefault then 1 else 0
  }

  /** Argument a has the type formatter f reads, and an int argument of
      `%d` lies above INT_MIN (negating INT_MIN is undefined). */
  predicate Fits(f: Formatter, a: Arg)
  {
    match f
    case FormatC => a.IntArg? && INT_MIN <= a.i <= INT_MAX
    case FormatS => a.StrArg?
    case FormatD => a.IntArg? && INT_MIN < a.i <= INT_MAX
    case FormatDefault => true
  }

  /** The caller's part of the contract: from argument index ai on, the
      arguments agree with every converting directive the scan from pos
      reaches. Extra arguments are allowed, as in C. */
  predicate ArgsFrom(fmt: seq<char>, pos: nat, args: seq<Arg>, ai: nat)
    decreases |fmt| - pos
  {
    At(fmt, pos) == '\0' ||
    ((Uses(fmt, pos) == 1 ==> ai < |args| && Fits(PieceAt(fmt, pos).f, args[ai]))
     && ArgsFrom(fmt, NextPos(fmt, pos), args, ai + Uses(fmt, pos)))
  }

  /** The byte `%c` prints for its int argument: format_c converts it to
      `char` (printf.c:59) and print reads that as `unsigned char`
      (printf.c:47), which together keep the value modulo 256. */
  function ByteChar(i: int): (c: char)
    ensures c as int == i % 256
  {
    (i % 256) as char
  }

  /** The text a converting directive prints for its argument. An argument
      of another type than the directive reads is undefined behaviour in C;
      ArgsFrom excludes it, and the text is then taken to be empty. */
  function Converted(f: Formatter, a: Arg): seq<char>
  {
    match (f, a)
    case (FormatC, IntArg(i)) => [ByteChar(i)]
    case (FormatS, StrArg(str)) => CString(str, 0)
    case (FormatD, IntArg(i)) => DecimalText(i)
    case _ => []
  }

  /** The text the piece at pos attempts to print. */
  function PieceText(fmt: seq<char>, pos: nat, args: seq<Arg>, ai: nat): seq<char>
    requires At(fmt, pos) != '\0'
  {
    match PieceAt(fmt, pos)
    case Literal(s, e) => fmt[s..e]
    case Directive(f) =>
      if f == FormatDefault then CString(fmt, pos)
      else if ai < |args| then Converted(f, args[ai])
      else []
  }

  /** The text printf produces when neither the budget nor the sink
      intervenes: the texts of all pieces, in order. */
  function Render(fmt: seq<char>, pos: nat, args: seq<Arg>, ai: nat): seq<char>
    decreases |fmt| - pos
  {
    if At(fmt, pos) == '\0' then []
    else PieceText(fmt, pos, args, ai) + Render(fmt, NextPos(fmt, pos), args, ai + Uses(fmt, pos))
  }

  // ---------------------------------------------------------------------
  // The output sink

  /** What the sink has done: how many putchar calls it has received and the
      characters it has accepted. putchar call number k (counted from 0) fails
      exactly when k is in the set `refused`, which stands for the device. */
  datatype SinkState = SinkState(calls: nat, out: seq<char>)

  /** `print` (printf.c:45-54): one putchar per character, stopping at the
      first refused one. Returns whether all were accepted. */
  function Emit(refused: set<nat>, st: SinkState, data: seq<char>): (r: (bool, SinkState))
    decreases |data|
  {
    if data == [] then (true, st)
    else if st.calls !in refused then Emit(refused, SinkState(st.calls + 1, st.out + [data[0]]), data[1..])
    else (false, SinkState(st.calls + 1, st.out))
  }

  /** print either emits all of data, or a prefix of it followed by one
      refused call, after which it stops. */
  lemma {:induction false} EmitEffect(refused: set<nat>, st: SinkState, data: seq<char>)
    ensures var (ok, st') := Emit(refused, st, data);
      (ok ==> st' == SinkState(st.calls + |data|, st.out + data)) &&
      (!ok ==> exists k :: 0 <= k < |data| && st.calls + k in refused &&
                 st' == SinkState(st.calls + k + 1, st.out + data[..k]))
    ensures (forall k :: st.calls <= k < st.calls + |data| ==> k !in refused) ==> Emit(refused, st, data).0
    decreases |data|
  {
    if data != [] && st.calls !in refused {
      var st1 := SinkState(st.calls + 1, st.out + [data[0]]);
      EmitEffect(refused, st1, data[1..]);
      assert st1.out + data[1..] == st.out + data;
      var (ok, st') := Emit(refused, st1, data[1..]);
      if !ok {
        var k :| 0 <= k < |data[1..]| && st1.calls + k in refused &&
                 st' == SinkState(st1.calls + k + 1, st1.out + data[1..][..k]);
        assert st1.out + data[1..][..k] == st.out + data[..k + 1];
      }
    } else if data != [] {
      assert st.out + data[..0] == st.out;
    }
  }

  // ---------------------------------------------------------------------
  // One piece, the budget, and the whole call

  /** Printing one piece with budget maxLen (printf.c:178): over budget
      gives -1 before anything is printed; otherwise its text goes to the
      sink and the result is its length, or -1 when the sink refused a
      character -- except for `%c`, whose test `!print(...)` can never be
      true, so it returns 1 whatever the sink does (printf.c:68). */
  function Chunk(p: Piece, text: seq<char>, maxLen: int, refused: set<nat>, st: SinkState)
    : (r: (int, SinkState))
    ensures r.0 == -1 || (r.0 == |text| <= maxLen)
    ensures maxLen < |text| ==> r == (-1, st)
  {
    if maxLen < |text| then (-1, st)
    else
      var e := Emit(refused, st, text);
      if e.0 || p == Directive(FormatC) then (|text|, e.1) else (-1, e.1)
  }

  /** The pieces the scan meets, in order, each with the text it attempts
      to print. */
  datatype Scan = Done | Next(piece: Piece, text: seq<char>, rest: Scan)

  /** The pieces the printf loop (printf.c:177-209) meets from cursor pos
      and argument index ai, in order. They depend on the format and the
      arguments only, never on what the sink does. */
  function Items(fmt: seq<char>, pos: nat, args: seq<Arg>, ai: nat): Scan
    decreases |fmt| - pos
  {
    if At(fmt, pos) == '\0' then Done
    else Next(PieceAt(fmt, pos), PieceText(fmt, pos, args, ai),
              Items(fmt, NextPos(fmt, pos), args, ai + Uses(fmt, pos)))
  }

  /** The texts of items, one after the other. */
  function Joined(items: Scan): seq<char>
  {
    match items
    case Done => []
    case Next(_, text, rest) => text + Joined(rest)
  }

  /** The printing side of the printf loop: each item is printed with the
      budget INT_MAX - written (printf.c:178) and its length is added to the
      count; the first -1 ends the call. Returns the final count or -1, and
      the sink state when the loop stops. */
  function Run(items: Scan, refused: set<nat>, written: int, st: SinkState): (r: (int, SinkState))
    requires 0 <= written <= INT_MAX
    ensures r.0 == -1 || written <= r.0 <= INT_MAX
  {
    match items
    case Done => (written, st)
    case Next(p, text, rest) =>
      var c := Chunk(p, text, INT_MAX - written, refused, st);
      if c.0 == -1 then (-1, c.1)
      else Run(rest, refused, written + c.0, c.1)
  }

  /** A whole printf call from sink state st. */
  function Printf(fmt: seq<char>, args: seq<Arg>, refused: set<nat>, st: SinkState): (int, SinkState)
  {
    Run(Items(fmt, 0, args, 0), refused, 0, st)
  }

  // ---------------------------------------------------------------------
  // Properties of the pieces

  /** A chunk starting with a character other than '%' runs up to, not
      including, the next '%' or the end, and is printed verbatim; the
      cursor moves to its end. */
  lemma LiteralPiece(fmt: seq<char>, pos: nat)
    requires At(fmt, pos) != '\0' && At(fmt, pos) != '%'
    ensures var e := NextPos(fmt, pos);
      PieceAt(fmt, pos) == Literal(pos, e) && Uses(fmt, pos) == 0 &&
      (forall k :: pos <= k < e ==> fmt[k] != '%' && fmt[k] != '\0') &&
      (At(fmt, e) == '%' || At(fmt, e) == '\0') &&
      PieceText(fmt, pos, [], 0) == fmt[pos..e]
  {
  }

  /** "%%" prints one '%' followed by the literal run after it; the cursor
      moves past both characters and the run. */
  lemma PercentPiece(fmt: seq<char>, pos: nat)
    requires At(fmt, pos) == '%' && At(fmt, pos + 1) == '%'
    ensures var e := NextPos(fmt, pos);
      e == RunEnd(fmt, pos + 2) && Uses(fmt, pos) == 0 &&
      PieceText(fmt, pos, [], 0) == ['%'] + fmt[pos + 2..e]
  {
    var e := NextPos(fmt, pos);
    assert fmt[pos + 1..e] == [fmt[pos + 1]] + fmt[pos + 2..e];
  }

  /** '%' followed by c, s, i or d selects that conversion, consumes one
      argument and two characters; any other character, including the
      terminator of a trailing '%', selects format_default, which consumes
      no argument. */
  lemma DirectivePiece(fmt: seq<char>, pos: nat)
    requires At(fmt, pos) == '%' && At(fmt, pos + 1) != '%'
    ensures PieceAt(fmt, pos) == Directive(Selected(At(fmt, pos + 1)))
    ensures Selected(At(fmt, pos + 1)) != FormatDefault ==>
      Uses(fmt, pos) == 1 && NextPos(fmt, pos) == pos + 2
    ensures Selected(At(fmt, pos + 1)) == FormatDefault <==>
      At(fmt, pos + 1) !in FormatterIds
    ensures Selected(At(fmt, pos + 1)) == FormatDefault ==> Uses(fmt, pos) == 0
  {
  }

  /** format_default prints everything from the '%' to the end of the format
      string and ends the scan: nothing after it is converted. */
  lemma DefaultEndsScan(fmt: seq<char>, pos: nat, args: seq<Arg>, ai: nat)
    requires At(fmt, pos) == '%' && At(fmt, pos + 1) != '%'
    requires Selected(At(fmt, pos + 1)) == FormatDefault
    ensures At(fmt, NextPos(fmt, pos)) == '\0'
    ensures Render(fmt, pos, args, ai) == CString(fmt, pos)
  {
    var n := NextPos(fmt, pos);
    assert Render(fmt, n, args, ai) == [];
  }

  /** `%c`: one character; -1 only when the budget is 0, and 1 otherwise
      whatever the sink does. */
  lemma CharChunk(c: char, maxLen: int, refused: set<nat>, st: SinkState)
    requires maxLen >= 0
    ensures Chunk(Directive(FormatC), [c], maxLen, refused, st).0 == if maxLen == 0 then -1 else 1
    ensures maxLen > 0 && st.calls in refused ==>
      Chunk(Directive(FormatC), [c], maxLen, refused, st) == (1, SinkState(st.calls + 1, st.out))
  {
  }

  /** `%c` prints exactly one character, whose code is its int argument
      modulo 256: `printf("%c", 0x141)` prints 'A'. */
  lemma CharConversion(i: int)
    ensures |Converted(FormatC, IntArg(i))| == 1
    ensures Converted(FormatC, IntArg(i))[0] as int == i % 256
    ensures Converted(Selected('c'), IntArg(0x141)) == "A"
  {
  }

  /** `%s` prints exactly strlen(str) characters, and fails with -1 when that
      exceeds the budget; under the budget it fails only if the sink does. */
  lemma StringChunk(s: seq<char>, maxLen: int, refused: set<nat>, st: SinkState)
    ensures var r := Chunk(Directive(FormatS), CString(s, 0), maxLen, refused, st);
      (maxLen < Strlen(s, 0) ==> r == (-1, st)) &&
      (maxLen >= Strlen(s, 0) && Emit(refused, st, CString(s, 0)).0 ==>
         r == (Strlen(s, 0), SinkState(st.calls + Strlen(s, 0), st.out + CString(s, 0)))) &&
      (maxLen >= Strlen(s, 0) && !Emit(refused, st, CString(s, 0)).0 ==> r.0 == -1)
  {
    EmitEffect(refused, st, CString(s, 0));
  }

  // ---------------------------------------------------------------------
  // Properties of the whole call

  /** The scan from pos starts with the piece at pos and goes on from the
      position after it. */
  lemma ItemsStep(fmt: seq<char>, pos: nat, args: seq<Arg>, ai: nat)
    requires At(fmt, pos) != '\0'
    ensures Items(fmt, pos, args, ai) ==
      Next(PieceAt(fmt, pos), PieceText(fmt, pos, args, ai), Items(fmt, NextPos(fmt, pos), args, ai + Uses(fmt, pos)))
  {
  }

  /** The argument agreement of the piece at pos, and of the rest of the scan. */
  lemma ArgsStep(fmt: seq<char>, pos: nat, args: seq<Arg>, ai: nat)
    requires ArgsFrom(fmt, pos, args, ai) && At(fmt, pos) != '\0'
    ensures Uses(fmt, pos) == 1 ==> ai < |args| && Fits(PieceAt(fmt, pos).f, args[ai])
    ensures ArgsFrom(fmt, NextPos(fmt, pos), args, ai + Uses(fmt, pos))
  {
  }

  /** The texts of the scanned pieces make up the rendered text. */
  lemma {:induction false} ItemsText(fmt: seq<char>, pos: nat, args: seq<Arg>, ai: nat)
    ensures Joined(Items(fmt, pos, args, ai)) == Render(fmt, pos, args, ai)
    decreases |fmt| - pos
  {
    if At(fmt, pos) != '\0' {
      ItemsStep(fmt, pos, args, ai);
      ItemsText(fmt, NextPos(fmt, pos), args, ai + Uses(fmt, pos));
    }
  }

  /** No putchar call numbered from `from` to `from + n - 1` is refused. */
  predicate Accepts(refused: set<nat>, from: nat, n: nat)
  {
    forall k :: from <= k < from + n ==> k !in refused
  }

  /** With a sink that accepts the calls it is about to receive, a piece
      within the budget is printed whole and counts its length. */
  lemma AcceptedChunk(p: Piece, text: seq<char>, maxLen: int, refused: set<nat>, st: SinkState)
    requires Accepts(refused, st.calls, |text|)
    ensures Chunk(p, text, maxLen, refused, st) ==
      if maxLen < |text| then (-1, st) else (|text|, SinkState(st.calls + |text|, st.out + text))
  {
    EmitEffect(refused, st, text);
  }

  /** The loop of printf advances from one piece to the next: a chunk
      printed with the remaining budget either ends the call with -1 or
      leaves the rest of the items to print, with the same outcome. */
  lemma Advance(items: Scan, refused: set<nat>, written: int, st: SinkState, len: int, st': SinkState)
    requires 0 <= written <= INT_MAX && items.Next?
    requires (len, st') == Chunk(items.piece, items.text, INT_MAX - written, refused, st)
    ensures len == -1 ==> Run(items, refused, written, st) == (-1, st')
    ensures len != -1 ==> 0 <= written + len <= INT_MAX
    ensures len != -1 ==> Run(items.rest, refused, written + len, st') == Run(items, refused, written, st)
  {
  }

  /** Advance for the piece at pos of fmt, as the printf loop meets it. */
  lemma ScanStep(fmt: seq<char>, pos: nat, args: seq<Arg>, ai: nat, refused: set<nat>,
                 written: int, st: SinkState, len: int, st': SinkState)
    requires 0 <= written <= INT_MAX && At(fmt, pos) != '\0'
    requires (len, st') == Chunk(PieceAt(fmt, pos), PieceText(fmt, pos, args, ai), INT_MAX - written, refused, st)
    ensures len == -1 ==> Run(Items(fmt, pos, args, ai), refused, written, st) == (-1, st')
    ensures len != -1 ==> 0 <= written + len <= INT_MAX
    ensures len != -1 ==>
      Run(Items(fmt, NextPos(fmt, pos), args, ai + Uses(fmt, pos)), refused, written + len, st') ==
        Run(Items(fmt, pos, args, ai), refused, written, st)
  {
    var items := Items(fmt, pos, args, ai);
    ItemsStep(fmt, pos, args, ai);
    Advance(items, refused, written, st, len, st');
  }

  /** The count printf returns is -1 or the running count plus the length of
      all the texts: the sum of the chunk lengths, never above INT_MAX. */
  lemma {:induction false} RunCount(items: Scan, refused: set<nat>, written: int, st: SinkState)
    requires 0 <= written <= INT_MAX
    ensures var r := Run(items, refused, written, st);
      r.0 == -1 || r.0 == written + |Joined(items)| <= INT_MAX
  {
    if items.Next? {
      var c := Chunk(items.piece, items.text, INT_MAX - written, refused, st);
      if c.0 != -1 {
        RunCount(items.rest, refused, written + c.0, c.1);
      }
    }
  }

  /** With a sink that accepts every call the texts need, the call fails
      exactly when the texts do not fit the INT_MAX budget. */
  lemma {:induction false} RunAcceptedFails(items: Scan, refused: set<nat>, written: int, st: SinkState)
    requires Accepts(refused, st.calls, |Joined(items)|)
    requires 0 <= written <= INT_MAX
    ensures Run(items, refused, written, st).0 == -1 <==> written + |Joined(items)| > INT_MAX
  {
    if items.Next? {
      var text := items.text;
      AcceptedChunk(items.piece, text, INT_MAX - written, refused, st);
      if |text| <= INT_MAX - written {
        RunAcceptedFails(items.rest, refused, written + |text|, SinkState(st.calls + |text|, st.out + text));
      }
    }
  }

  /** With a sink that accepts every call the texts need, a call that
      succeeds hands the sink exactly the texts, one call per character. */
  lemma {:induction false} RunAcceptedOutput(items: Scan, refused: set<nat>, written: int, st: SinkState)
    requires Accepts(refused, st.calls, |Joined(items)|)
    requires 0 <= written <= INT_MAX
    ensures var r := Run(items, refused, written, st);
      r.0 != -1 ==> r.1 == SinkState(st.calls + |Joined(items)|, st.out + Joined(items))
  {
    if items.Next? {
      var text := items.text;
      AcceptedChunk(items.piece, text, INT_MAX - written, refused, st);
      if |text| <= INT_MAX - written {
        RunAcceptedOutput(items.rest, refused, written + |text|, SinkState(st.calls + |text|, st.out + text));
        assert st.out + text + Joined(items.rest) == st.out + (text + Joined(items.rest));
      }
    } else {
      assert st.out + [] == st.out;
    }
  }

  /** The lemmas above for a whole call, over the rendered text. */
  lemma PrintfResult(fmt: seq<char>, args: seq<Arg>, refused: set<nat>, st: SinkState)
    ensures var r := Printf(fmt, args, refused, st);
      var t := Render(fmt, 0, args, 0);
      (r.0 == -1 || r.0 == |t| <= INT_MAX) &&
      (Accepts(refused, st.calls, |t|) ==>
         (r.0 == -1 <==> |t| > INT_MAX) && (r.0 != -1 ==> r.1.out == st.out + t))
  {
    var items := Items(fmt, 0, args, 0);
    ItemsText(fmt, 0, args, 0);
    RunCount(items, refused, 0, st);
    if Accepts(refused, st.calls, |Render(fmt, 0, args, 0)|) {
      RunAcceptedFails(items, refused, 0, st);
      RunAcceptedOutput(items, refused, 0, st);
    }
  }

  /** The number of pieces in items. */
  function Count(items: Scan): nat
  {
    match items
    case Done => 0
    case Next(_, _, rest) => 1 + Count(rest)
  }

  /** The total length of the texts of the first n items. */
  function TextsLength(items: Scan, n: nat): nat
  {
    if n == 0 || items.Done? then 0 else |items.text| + TextsLength(items.rest, n - 1)
  }

  /** Every `%c` piece attempts at most one character. */
  predicate CharTextsShort(items: Scan)
  {
    items.Next? ==> (items.piece == Directive(FormatC) ==> |items.text| <= 1) && CharTextsShort(items.rest)
  }

  lemma {:induction false} ItemsCharTextsShort(fmt: seq<char>, pos: nat, args: seq<Arg>, ai: nat)
    ensures CharTextsShort(Items(fmt, pos, args, ai))
    decreases |fmt| - pos
  {
    if At(fmt, pos) != '\0' {
      ItemsStep(fmt, pos, args, ai);
      ItemsCharTextsShort(fmt, NextPos(fmt, pos), args, ai + Uses(fmt, pos));
    }
  }

  /** Piece n of items is where a call from count written and sink state st
      with final sink state st' failed: the earlier pieces fit the budget
      and made one putchar call per character; then either piece n is over
      the budget and reaches the sink with nothing, or the sink refused a
      call of piece n, and that call is the last one it received. */
  predicate FailsAt(items: Scan, refused: set<nat>, written: int, st: SinkState, st': SinkState, n: nat)
  {
    n < Count(items) && written + TextsLength(items, n) <= INT_MAX &&
    ((written + TextsLength(items, n + 1) > INT_MAX && st'.calls == st.calls + TextsLength(items, n)) ||
     (st.calls + TextsLength(items, n) < st'.calls <= st.calls + TextsLength(items, n + 1) &&
      st'.calls - 1 in refused))
  }

  /** A call that returns -1 stops at the first piece that fails (FailsAt):
      after a refused call the sink receives no further call, and a piece
      over the budget sends it nothing. */
  lemma {:induction false} RunFailure(items: Scan, refused: set<nat>, written: int, st: SinkState)
    requires 0 <= written <= INT_MAX && CharTextsShort(items)
    ensures var r := Run(items, refused, written, st);
      r.0 == -1 ==> exists n :: FailsAt(items, refused, written, st, r.1, n)
  {
    if items.Next? {
      var text := items.text;
      var c := Chunk(items.piece, text, INT_MAX - written, refused, st);
      EmitEffect(refused, st, text);
      assert TextsLength(items, 0) == 0 && TextsLength(items, 1) == |text|;
      if c.0 != -1 {
        assert c.1.calls == st.calls + |text|;
        RunFailure(items.rest, refused, written + c.0, c.1);
        var r := Run(items, refused, written, st);
        if r.0 == -1 {
          var n: nat :| FailsAt(items.rest, refused, written + c.0, c.1, r.1, n);
          assert TextsLength(items, n + 1) == |text| + TextsLength(items.rest, n);
          assert TextsLength(items, n + 2) == |text| + TextsLength(items.rest, n + 1);
          assert FailsAt(items, refused, written, st, r.1, n + 1);
        }
      } else {
        assert FailsAt(items, refused, written, st, c.1, 0);
      }
    }
  }

  /** RunFailure for a whole printf call. */
  lemma PrintfFailure(fmt: seq<char>, args: seq<Arg>, refused: set<nat>, st: SinkState)
    ensures var r := Printf(fmt, args, refused, st);
      r.0 == -1 ==> exists n :: FailsAt(Items(fmt, 0, args, 0), refused, 0, st, r.1, n)
  {
    ItemsCharTextsShort(fmt, 0, args, 0);
    RunFailure(Items(fmt, 0, args, 0), refused, 0, st);
  }

  // ---------------------------------------------------------------------
  // The argument list as the formatters receive it

  /** The text printf.c produces on i386, where `va_list` is a pointer that
      printf passes by value to each formatter (printf.c:165, 200): the
      formatter advances its own copy, printf's list never moves, and every
      converting directive reads the first argument. */
  function RenderSharedList(fmt: seq<char>, pos: nat, args: seq<Arg>): seq<char>
    decreases |fmt| - pos
  {
    if At(fmt, pos) == '\0' then []
    else PieceText(fmt, pos, args, 0) + RenderSharedList(fmt, NextPos(fmt, pos), args)
  }

  /** How the scan cuts a format of two conversions. */
  lemma TwoDirectives(x: char, y: char)
    requires x in FormatterIds && y in FormatterIds
    ensures var fmt := ['%', x, '%', y];
      PieceAt(fmt, 0) == Directive(Selected(x)) && Selected(x) != FormatDefault &&
      NextPos(fmt, 0) == 2 && Uses(fmt, 0) == 1 &&
      PieceAt(fmt, 2) == Directive(Selected(y)) && Selected(y) != FormatDefault &&
      NextPos(fmt, 2) == 4 && Uses(fmt, 2) == 1 && At(fmt, 4) == '\0'
  {
  }

  /** Two consecutive conversions: with the argument cursor the code
      evidently intends, the second prints the second argument; as written,
      both print the first. */
  lemma TwoConversions(x: char, y: char, a: Arg, b: Arg)
    requires x in FormatterIds && y in FormatterIds
    ensures Render(['%', x, '%', y], 0, [a, b], 0) == Converted(Selected(x), a) + Converted(Selected(y), b)
    ensures RenderSharedList(['%', x, '%', y], 0, [a, b]) == Converted(Selected(x), a) + Converted(Selected(y), a)
  {
    var fmt := ['%', x, '%', y];
    TwoDirectives(x, y);
    assert PieceText(fmt, 0, [a, b], 0) == Converted(Selected(x), a);
    assert PieceText(fmt, 2, [a, b], 0) == Converted(Selected(y), a);
    assert PieceText(fmt, 2, [a, b], 1) == Converted(Selected(y), b);
    assert RenderSharedList(fmt, 4, [a, b]) == [] && Render(fmt, 4, [a, b], 2) == [];
  }

  /** The input that shows it: "%d%d" with 1 and 2. */
  lemma SharedListRepeatsFirstArgument()
    ensures Render("%d%d", 0, [IntArg(1), IntArg(2)], 0) == "12"
    ensures RenderSharedList("%d%d", 0, [IntArg(1), IntArg(2)]) == "11"
  {
    TwoConversions('d', 'd', IntArg(1), IntArg(2));
    OneAndTwo();
  }

  lemma OneAndTwo()
    ensures Converted(Selected('d'), IntArg(1)) == "1" && Converted(Selected('d'), IntArg(2)) == "2"
  {
    assert Digits(1) == "1" && Digits(2) == "2";
  }
}
