# kfs-2 kernel and libc core in Dafny

A model of the sequential core of the kfs-2 i386 hobby kernel and its freestanding libc, with proofs about it:

- **printf** (`printf.c`). A left-to-right scanner over the format string. It copies literal runs and `%%`, and dispatches `%c`, `%s`, `%d` and `%i` through the `formatter_ids`/`formatters` tables. Any other directive goes to `format_default`.
  - Every chunk is checked against the budget `INT_MAX - written_len`.
  - Output goes through `putchar` to a device that may refuse a call.
  - Module `FormatSpec` states what a call computes as functions. Module `Printf` runs the same loop imperatively and is proved to compute them.
- **`%d` conversion** (module `Decimal`). The do-while that fills `representation[]` backwards, and the properties of the text it produces.
- **The GDT** (`gdt.c`, `gdt.h`). The bit packing of an IA-32 segment descriptor (Intel SDM Vol. 3A, section 3.4.5) and the 7-slot table `gdt_install` writes. Also the 6-byte pointer image of section 2.4.1, the `lgdt` load, and the selector constants (section 3.4.2).
- **printk diagnostics** (`printk.c`). The fixed-width hexadecimal encoder `print_hex`, and the stack report of `print_kernel_stack` as records: the four addresses, the two sizes, and the walk over at most 16 words.
- **The VGA text terminal** (`terminal.c`). A class with the fields of `struct terminal`, updated in place over a 2000-cell array (the page; the rest of text memory is never read). Operations: clear-from, put-at, scroll (memmove, then blank), relative move, newline, putchar and write. Clear-from, scroll, relative move, newline, putchar and write are proved against functions of module `TerminalSpec`. The relative move reduces its new column modulo 80, as intended; `MoveRelAsWritten` is the move as written (see "## Findings"). Initialize, get-row, set-color and put-at state their effect on the fields and cells directly.
- **`memcmp`, `memmove`, `memcpy`, `ft_memset`**. The array loops, proved against `Compare`, `ForwardCopy`/`BackwardCopy`/`Splice` and `Filled`. Memory is one array and pointers are indices into it, so overlapping moves are described too.

Modelling conventions:

- C strings are `seq<char>`. Reads past the end yield the terminator (`CTypes.At`), and a string ends at its first `'\0'`. The characters of the format and of `%s` strings are taken to be bytes (see "## Left out"). `%c` reads an int and prints it modulo 256.
- `int` and `size_t` are 32 bits. Wrap-around is written out as `% TWO32` where the code relies on it: the scroll's `row -= y` and the `uint32_t` subtractions of the stack report.
- The `putchar` device is a `Sink` whose call number k fails exactly when k is in the set `refused`. This covers every pattern of failure.

The project is meant to be verified as a whole: every .dfy file passed to one `dafny verify` call.

## Model

| member | source | states |
|---|---|---|
| Decimal.DigitsRoundTrip | src/libc/src/stdio/printf.c:112-115 | parsing the decimal digits of n gives n back |
| Decimal.DigitsShape | src/libc/src/stdio/printf.c:112-115 | every character is a digit, and the first is '0' exactly when the number is zero (no leading zeros) |
| Decimal.DigitsOfInt | src/libc/src/stdio/printf.c:94 | a magnitude up to INT_MAX has at most 10 digits, so the digits fit the 11-character buffer with the sign |
| Decimal.DecimalTextProperties | src/libc/src/stdio/printf.c:104-118 | for INT_MIN < v: '-' first exactly when v < 0; then digits with no leading zero; at most 11 characters; 0 prints "0"; parsing the text back gives v |
| Decimal.WriteDigits | src/libc/src/stdio/printf.c:112-115 | the do-while leaves the digits of the value in the last len cells of the buffer, and len is their number (at most 10) |
| Decimal.DecimalRepresentation | src/libc/src/stdio/printf.c:94-118 | the text left in the buffer is the optional '-' and the digits of the magnitude, for every value above INT_MIN |
| FormatSpec.RunEnd | src/libc/src/stdio/printf.c:184-187 | a literal run ends at the first '%' or terminator at or after its second character, and contains neither |
| FormatSpec.PieceAt | src/libc/src/stdio/printf.c:180-201 | a literal piece lies within the format string; a converting directive has its character inside it |
| FormatSpec.NextPos | src/libc/src/stdio/printf.c:180-201 | every piece moves the cursor forward and never past the end of the format string, so the scan terminates |
| FormatSpec.EmitEffect | src/libc/src/stdio/printf.c:45-54 | print hands the sink all of the data and succeeds, or a prefix followed by one refused call and fails; it succeeds when no call is refused |
| FormatSpec.Chunk | src/libc/src/stdio/printf.c:178-197 | a chunk over the budget gives -1 without printing; otherwise its result is -1 or its length, within the budget |
| FormatSpec.Run | src/libc/src/stdio/printf.c:175-209 | the count is -1 or grows from its start and stays within INT_MAX |
| FormatSpec.LiteralPiece | src/libc/src/stdio/printf.c:180-197 | a chunk starting with a character other than '%' runs up to, not including, the next '%' or the end, consumes no argument and is printed verbatim |
| FormatSpec.PercentPiece | src/libc/src/stdio/printf.c:180-187 | "%%" prints one '%' and the literal run after it; the cursor moves past both |
| FormatSpec.DirectivePiece | src/libc/src/stdio/printf.c:147-166 | '%' followed by c, s, i or d selects a formatter that consumes one argument and two characters; any other character, the terminator included, selects format_default, which consumes none |
| FormatSpec.DefaultEndsScan | src/libc/src/stdio/printf.c:128-145 | format_default prints the whole rest of the format from the '%' and ends the scan, so nothing after it is converted |
| FormatSpec.CharChunk | src/libc/src/stdio/printf.c:56-72 | `%c` prints one character and returns -1 only when the budget is 0; it returns 1 even when the sink refuses the character |
| FormatSpec.CharConversion | src/libc/src/stdio/printf.c:59 | `%c` prints exactly one character, whose code is its int argument modulo 256 (the `char` cast of printf.c:59 read back as `unsigned char`); 0x141 prints 'A' |
| FormatSpec.StringChunk | src/libc/src/stdio/printf.c:74-88 | `%s` prints exactly strlen(str) characters; -1 with nothing printed when that exceeds the budget, -1 otherwise only when the sink refuses |
| FormatSpec.ItemsText | src/libc/src/stdio/printf.c:177-209 | the texts the loop meets, joined, are the rendered text of the call |
| FormatSpec.AcceptedChunk | src/libc/src/stdio/printf.c:189-197 | with a sink that accepts the calls the chunk makes, a chunk within the budget is printed whole and counts its length |
| FormatSpec.RunCount | src/libc/src/stdio/printf.c:175-214 | the result is -1, or the sum of all chunk lengths, which is at most INT_MAX |
| FormatSpec.RunAcceptedFails | src/libc/src/stdio/printf.c:178-192 | with a sink that refuses none of the calls the texts need, the call returns -1 exactly when the texts exceed the INT_MAX budget |
| FormatSpec.RunAcceptedOutput | src/libc/src/stdio/printf.c:189-197 | with a sink that refuses none of the calls the texts need, a successful call hands the sink exactly the texts, one call per character |
| FormatSpec.PrintfResult | src/libc/src/stdio/printf.c:168-215 | printf returns -1 or the length of the rendered text, at most INT_MAX; with a sink that refuses none of the calls the text needs it fails exactly on overflow, and otherwise outputs the text |
| FormatSpec.RunFailure | src/libc/src/stdio/printf.c:189-206 | a call that returns -1 stops at the first piece that fails, after the earlier pieces fit the budget with one putchar call per character: either that piece is over its budget and the sink receives nothing of it, or the sink refused one of its calls and that call is the last the sink receives |
| FormatSpec.PrintfFailure | src/libc/src/stdio/printf.c:168-215 | RunFailure for a whole printf call: no putchar call follows a refused one that made the call fail, and nothing is printed after the budget is exceeded |
| FormatSpec.ItemsCharTextsShort | src/libc/src/stdio/printf.c:56-72 | every `%c` piece attempts at most one character |
| FormatSpec.TwoDirectives | src/libc/src/stdio/printf.c:147-166 | a format of two conversions is cut into two directives of two characters, each consuming one argument |
| FormatSpec.TwoConversions | src/libc/src/stdio/printf.c:161-166 | two consecutive conversions print the first and second argument with the shared cursor, but the first argument twice as the code passes the list |
| FormatSpec.SharedListRepeatsFirstArgument | src/libc/src/stdio/printf.c:161-166 | "%d%d" with 1 and 2 renders "12" with the shared cursor and "11" as written |
| Printf.Print | src/libc/src/stdio/printf.c:45-54 | returns the length when every byte was accepted, else -1 after the first refused one; the sink ends in the state Emit describes |
| Printf.FormatC | src/libc/src/stdio/printf.c:56-72 | computes Chunk for the one character whose code is the int argument modulo 256; consumes one argument and two format characters |
| Printf.FormatS | src/libc/src/stdio/printf.c:74-88 | computes Chunk for the C string argument; consumes one argument and two format characters |
| Printf.FormatD | src/libc/src/stdio/printf.c:91-126 | computes Chunk for the decimal text of the argument; consumes one argument and two format characters |
| Printf.FormatDefault | src/libc/src/stdio/printf.c:128-145 | computes Chunk for the rest of the format; the cursor moves past it only on success, and no argument is consumed |
| Printf.FormatterId | src/libc/src/stdio/printf.c:147-159 | the table search returns the formatter Selected names for the character |
| Printf.Format | src/libc/src/stdio/printf.c:161-166 | dispatching a directive computes its Chunk and advances cursor and argument index as NextPos and Uses say |
| Printf.PrintLiteral | src/libc/src/stdio/printf.c:180-198 | the literal branch computes Chunk for the run and moves the cursor past it on success |
| Printf.PrintPiece | src/libc/src/stdio/printf.c:178-201 | one loop body prints the piece at the cursor with budget INT_MAX - written |
| Printf.Step | src/libc/src/stdio/printf.c:177-209 | one loop pass keeps the loop invariant: the rest of the loop still ends in the final outcome, or this pass ends it with -1 |
| Printf.Printf | src/libc/src/stdio/printf.c:168-215 | the count and the sink state printf leaves are those of FormatSpec.Printf |
| Gdt.Gate | src/kernel/src/arch/i386/gdt.c:37-45 | base_low, base_middle and base_high read back (EntryBase) as the base; limit_low and the low nibble of granularity read back (EntryLimit) as the low 20 bits of the limit; the high nibble of granularity is that of gran; access is stored unchanged |
| Gdt.GateIgnoresDiscardedBits | src/kernel/src/arch/i386/gdt.c:41-44 | limit bits 20-31 and the low nibble of gran do not reach the descriptor |
| Gdt.EntryEncodingRoundTrip | src/kernel/src/arch/i386/gdt.c:4-11 | the packed 8-byte image of a descriptor determines it |
| Gdt.PtrEncodingRoundTrip | src/kernel/src/arch/i386/gdt.c:14-17 | the packed 6-byte image of the table pointer determines it |
| Gdt.TableLimit | src/kernel/src/arch/i386/gdt.c:50 | the pointer limit is 8 * 7 - 1 = 55 |
| Gdt.InstalledTableLayout | src/kernel/src/arch/i386/gdt.c:54-78 | slot 0 is all zero; slots 1-6 have base fields 0, limit_low 0xFFFF, granularity 0xCF and access 0x9A, 0x92, 0x92, 0xFA, 0xF2, 0xF2 in order; each spans base 0 and limit 0xFFFFF |
| Gdt.SegmentAccessMeaning | src/kernel/src/arch/i386/gdt.c:56-75 | each installed segment is present and a code/data segment; slots 1-3 are ring 0 and slots 4-6 ring 3; only slots 1 and 4 are code |
| Gdt.GdtState.constructor | src/kernel/src/arch/i386/gdt.c:28-29 | the static table and pointer start zeroed and nothing is loaded |
| Gdt.GdtState.SetGate | src/kernel/src/arch/i386/gdt.c:35-46 | slot num becomes Gate of the arguments and every other slot is unchanged |
| Gdt.GdtState.Flush | src/kernel/src/arch/i386/gdt.c:81 | the load may happen only once all seven slots are written, and loads the pointer image |
| Gdt.GdtState.Install | src/kernel/src/arch/i386/gdt.c:48-82 | the table ends as InstalledTable, gp holds limit 55 and the table address, all slots are written before the load, and the register holds gp |
| GdtSelectors.SelectorsAddressSlots | src/kernel/include/kernel/gdt.h:6-11 | selector k is slot k + 1 times 8, with table indicator 0 and RPL 0 |
| GdtSelectors.SelectorsDistinct | src/kernel/include/kernel/gdt.h:6-11 | the six selectors are distinct and none selects the null slot |
| GdtSelectors.SelectorsInsideTable | src/kernel/include/kernel/gdt.h:6-11 | every selected descriptor lies wholly inside the table: selector + 7 is at most gp.limit |
| GdtSelectors.SelectorsMatchInstallOrder | src/kernel/src/arch/i386/gdt.c:59-78 | after installing, 0x08 names kernel code (0x9A) through 0x30 user stack (0xF2), matching the install order |
| Printk.HexText | src/kernel/src/kernel/printk.c:30-37 | the text is 10 characters, beginning with "0x" |
| Printk.ParseHexDigits | src/kernel/src/kernel/printk.c:33-36 | reading n emitted digits back in base 16 gives the value modulo 16^n |
| Printk.HexTextNibbles | src/kernel/src/kernel/printk.c:33-36 | position 9 - k holds the digit of nibble k of the value |
| Printk.HexTextUpperCase | src/kernel/src/kernel/printk.c:26-34 | the 8 digits are drawn from "0123456789ABCDEF" |
| Printk.HexTextRoundTrip | src/kernel/src/kernel/printk.c:33-36 | parsing the 8 digits in base 16 gives the 32-bit value back |
| Printk.HexTextZero | src/kernel/src/kernel/printk.c:33-36 | zero is zero-padded: "0x00000000" |
| Printk.PrintHex | src/kernel/src/kernel/printk.c:24-40 | the descending loop leaves HexText of the value in the buffer |
| Printk.WalkLength | src/kernel/src/kernel/printk.c:83 | the walk shows at most 16 words, none when esp is at or above stack_top, and otherwise at least one; every word shown lies below stack_top, and fewer than 16 are shown only when the next one would be at or above it |
| Printk.StackWalk | src/kernel/src/kernel/printk.c:81-90 | entry i reports offset 4i, address esp + 4i below stack_top, and the word stored there; the number of entries is WalkLength; memory is only read |
| Printk.Sub32 | src/kernel/src/kernel/printk.c:76-77 | the 32-bit difference added back to the subtrahend gives the minuend modulo 2^32, and is the plain difference when there is no borrow |
| Printk.PrintKernelStack | src/kernel/src/kernel/printk.c:46-93 | the report holds HexText of the four addresses, the sizes top - bottom and top - esp as 32-bit values, and the walk entries |
| Memcmp.Memcmp | src/libc/src/string/memcmp.c:3-12 | the result is Compare of the buffers; it is 0 exactly when the first n bytes are equal, and lies in [-255, 255]; the buffers are not modified |
| Memcmp.MismatchUnique | src/libc/src/string/memcmp.c:9 | the index where the scanning loop stops is the first mismatch |
| Memcmp.CompareZeroIffEqual | src/libc/src/string/memcmp.c:9-11 | the result is 0 exactly when the first n bytes are equal, so n = 0 gives 0 |
| Memcmp.CompareIsFirstDifference | src/libc/src/string/memcmp.c:5-11 | a nonzero result is the unsigned byte difference at the first index where the buffers differ; every result lies in [-255, 255] |
| Memcmp.CompareAntisymmetric | src/libc/src/string/memcmp.c:9-11 | swapping the buffers negates the result |
| Memcpy.ForwardCopyIsSplice | src/libc/src/string/memcpy.c:5-6 | the ascending copy is an exact copy when the destination is at or below the source or the ranges are disjoint |
| Memcpy.SpliceAt | src/libc/src/string/memcpy.c:5-6 | after an exact copy, element d + i holds the old element s + i and every element outside the destination is unchanged |
| Memcpy.Memcpy | src/libc/src/string/memcpy.c:3-9 | returns dst; memory is the ascending element-by-element copy, which for disjoint ranges puts the old source in the destination and changes nothing else (n = 0 changes nothing) |
| Memmove.BackwardCopyIsSplice | src/libc/src/string/memmove.c:8-10 | the descending copy is an exact copy when the destination is at or above the source or the ranges are disjoint |
| Memmove.SpliceSelf | src/libc/src/string/memmove.c:8 | copying a range onto itself changes nothing |
| Memmove.Memmove | src/libc/src/string/memmove.c:3-13 | forward copy when dst < src, backward when dst > src, nothing when equal; in every case the destination holds the old source and nothing else changes, overlap included; the result is dst + n on the forward path and dst otherwise |
| Memset.ToByte | src/libc/src/string/memset.c:6 | the stored byte is the int argument modulo 256 |
| Memset.FilledIdempotent | src/libc/src/string/memset.c:5-6 | a second identical call leaves the memory as the first left it |
| Memset.FtMemset | src/libc/src/string/memset.c:3-9 | returns dst; bytes 0 .. len - 1 hold c mod 256 and the bytes from len on are unchanged |
| TerminalSpec.ClearStart | src/kernel/src/arch/i386/terminal.c:10-20 | the first blanked cell lies within the 2000 cells |
| TerminalSpec.ClearRegion | src/kernel/src/arch/i386/terminal.c:10-20 | for x < 80 and y < 25 the cells from y * 80 + x on are blank and those below unchanged; x >= 80 starts at the next row; y >= 25 blanks nothing |
| TerminalSpec.ScrollEffect | src/kernel/src/arch/i386/terminal.c:55-63 | for y <= row, the row goes up by y, the cells up to the new cursor row hold those y rows further down, and every cell from the next row on is blank |
| TerminalSpec.MoveRelEffect | src/kernel/src/arch/i386/terminal.c:65-86 | the column becomes (column + x) % 80, the intended reading of line 72; the row gains the column overflow plus y, ends at most at 24, and the cells change only by the scroll of the excess |
| TerminalSpec.NewlineEffect | src/kernel/src/arch/i386/terminal.c:88-92 | a newline leaves column 0 one row further down plus the rows an overflowed column (80 or more) stands for (terminal.c:67-69), and at most on row 24 |
| TerminalSpec.NewlineFromOverflow | src/kernel/src/arch/i386/terminal.c:65-92 | from column 80 on row 3, which the move as written reaches, a newline lands on row 5 |
| TerminalSpec.PutcharEffect | src/kernel/src/arch/i386/terminal.c:94-104 | a character other than a newline moves the cursor one column to the right, modulo 80. Without a scroll it is stored at row * 80 + column in the current color, nothing else changes, and the row gains (column + 1) / 80. A cell at 2000 or past it leaves the page as it was, and only the cursor moves. A scroll by shift rows leaves the cursor on row 24. It moves the character of a column below 80 to its cell minus 80 * shift, and erases a character whose column had overflowed into the next row |
| TerminalSpec.WriteAppend | src/kernel/src/arch/i386/terminal.c:106-112 | writing a + b is writing a, then b |
| TerminalSpec.WriteStaysOnScreen | src/kernel/src/arch/i386/terminal.c:106-112 | after a non-empty write the cursor row is on the screen and the color is unchanged |
| TerminalSpec.ColumnOverflow | src/kernel/src/arch/i386/terminal.c:72-84 | as written, a character at column 79 leaves the cursor at column 80, so the next character lands a row further. From row 23 or 24 that is cell 2000, just past the page: the character is not seen there, and the page scrolls up one row with the cursor at column 81 of row 24 |
| TerminalSpec.OffPageFromLastRow | src/kernel/src/arch/i386/terminal.c:94-104 | as written, a character put at column 80 of row 24 (cell 2000) changes nothing on the page but the scroll by one row, and leaves the cursor at column 81 of row 24 |
| TerminalSpec.CursorCellInTextMemory | src/kernel/src/arch/i386/terminal.c:100-102 | when the cursor can move one to the right, its cell row * 80 + column is below 4000, inside the 16384 cells of text memory |
| TerminalSpec.PutcharKeepsCursorOnPage | src/kernel/src/arch/i386/terminal.c:65-104 | from a cursor on the page (row < 25, column < 80) putchar is always defined, moves at most one row past the last, and leaves the cursor on the page |
| TerminalSpec.WriteAlwaysDefined | src/kernel/src/arch/i386/terminal.c:106-112 | from a cursor on the page every text can be written, whatever its length, and the cursor stays on the page |
| TerminalSpec.LongLineCounts | src/kernel/src/arch/i386/terminal.c:65-104 | as written, on row 24 each character from column 79 to 2078 moves the cursor one column to the right, so the column counts the characters of the line |
| TerminalSpec.LongLineScrollWraps | src/kernel/src/arch/i386/terminal.c:55-76 | as written, on row 24 a character at column 2079, or a newline at column 2000, needs a scroll by 26 rows, which is outside `MoveOk`; for 26 rows the `size_t` length 80 * (25 - 26) wraps to 2^32 - 80 cells |
| Terminal.Terminal.constructor | src/kernel/include/kernel/terminal.h:6-11 | the zeroed global bound to its 2000 cells of text memory |
| Terminal.Terminal.ClearAt | src/kernel/src/arch/i386/terminal.c:10-20 | the nested loops leave the cells ClearFrom describes: blank from ClearStart(x, y) on, the others unchanged |
| Terminal.Terminal.Clear | src/kernel/src/arch/i386/terminal.c:22-25 | every cell is blank in the current color |
| Terminal.Terminal.Initialize | src/kernel/src/arch/i386/terminal.c:27-36 | row = column = 0, the default color, and all 2000 cells blank |
| Terminal.Terminal.GetRow | src/kernel/src/arch/i386/terminal.c:38-41 | returns the cursor row |
| Terminal.Terminal.SetColor | src/kernel/src/arch/i386/terminal.c:43-46 | the color changes and the cursor does not |
| Terminal.Terminal.PutEntryAt | src/kernel/src/arch/i386/terminal.c:48-53 | exactly the cell at y * 80 + x changes when it lies on the page; a cell of text memory past the page leaves the page unchanged |
| Terminal.Terminal.ScrollDown | src/kernel/src/arch/i386/terminal.c:55-63 | the state becomes ScrollSpec of the old state |
| Terminal.Terminal.MoveRel | src/kernel/src/arch/i386/terminal.c:65-86 | the state becomes MoveRelSpec of the old state, with the column reduced modulo 80 (the corrected line 72) |
| Terminal.Terminal.Newline | src/kernel/src/arch/i386/terminal.c:88-92 | the state becomes NewlineSpec of the old state |
| Terminal.Terminal.Putchar | src/kernel/src/arch/i386/terminal.c:94-104 | the state becomes PutcharSpec of the old state |
| Terminal.Terminal.Write | src/kernel/src/arch/i386/terminal.c:106-112 | the state becomes WriteSpec of the old state (each character put in order); the result is size converted to int |

## Findings

| source | as written | input that shows it | evidently intended | confidence | as-written member | corrected member |
|---|---|---|---|---|---|---|
| src/kernel/src/arch/i386/terminal.c:58-76 | `terminal_move_rel` adds the rows a column overflows into to y. Line 72 then reduces only x modulo 80, so the column is never wrapped and counts the characters of a line. On row 24 each character past column 79 scrolls the page by `row + y - 24` rows, and that number grows with the column. At 26 rows, line 76 calls `terminal_scroll_down(26)`, where `new_length = 80 * (25 - 26)` (line 58) wraps as a `size_t` to 2^32 - 80. The memmove of line 60 then copies about 4 GiB | writing a line of 2080 characters without a newline once the cursor is on row 24, or a newline after 2000 characters of a line | the new column is `(column + x) % 80`, so the cursor stays on the page, each putchar or newline scrolls at most one row, and every text can be written | not executed | TerminalSpec.MoveRelAsWritten, TerminalSpec.LongLineCounts, TerminalSpec.LongLineScrollWraps | TerminalSpec.MoveRelSpec, TerminalSpec.PutcharKeepsCursorOnPage, TerminalSpec.WriteAlwaysDefined |
| src/libc/src/stdio/printf.c:161-166 | printf passes its `va_list` by value to every formatter. On i386 a `va_list` is a pointer, so each formatter advances only its own copy. Every conversion reads the first variadic argument (C11 leaves the caller's list indeterminate) | `printf("%d%d", 1, 2)` prints "11" | one shared argument cursor: each conversion reads the next argument, giving "12" | not executed | FormatSpec.RenderSharedList, FormatSpec.SharedListRepeatsFirstArgument | FormatSpec.Render, FormatSpec.TwoConversions |

The rest of the model (`Items`, `Run`, the `Printf` method and its formatters) uses the shared cursor: it passes the argument index `ai` the way a `va_list *` would. Likewise `NewlineSpec`, `PutcharSpec`, `WriteSpec` and every method of `Terminal.Terminal` use the wrapped column of `MoveRelSpec`. `ColumnOverflow`, `OffPageFromLastRow` and `NewlineFromOverflow` describe the move as written.

## Left out

- `gdt_flush` is external assembly. `GdtState.Flush` stands for it, and says only that all slots are written first and the register is loaded. The address cast `(uint32_t)&gdt` is the parameter `tableAddress` of `Install`.
- The inline-assembly reads of ESP and EBP and the linker symbols `stack_bottom`/`stack_top` are parameters of `Printk.PrintKernelStack`. Memory is a byte array read little-endian.
- `printk` itself (printk.c:10-21) is not modelled, and neither is the text layout of the stack dump. `printk` passes its `va_list` as a single variadic argument to `printf`, so it is not `printf` with forwarded arguments. The dump is modelled as records and the hex texts print_hex produces.
- `putchar.c` and `puts.c` are not part of this model. The device is an abstract `Sink` that may refuse any call, so the failure paths of `print` are covered. In the real build `putchar` always returns its argument.
- `kernel.c`, which is boot sequencing only, is not part of this model.
- The VGA hardware is not modelled. `vga_entry` (from `vga.h`, not part of this model) is the constructor `VgaEntry(ch, color)`. The value of `vga_entry_color(LIGHT_GREY, BLACK)` is the parameter of `Initialize`. The buffer address 0xB8000 is the array given to the constructor.
- Printf.Printf: C undefined behaviour is excluded by the precondition `ArgsFrom`. It requires that every conversion has an argument of the type it reads, that `%s` has a string (not NULL), and that `%d` has a value above INT_MIN.
- Printf.FormatD: `-value` for INT_MIN is excluded by the requires `INT_MIN < value`, since the code's behaviour there is undefined.
- Memcpy.Memcpy and Memmove.Memmove count elements of an array of any type, not bytes. `terminal_scroll_down` passes `sizeof(*buffer) * new_length` bytes, which is `new_length` cells.
- Terminal.Terminal.MoveRel: the parameters are `nat`, so negative `int` arguments are outside the model. `MoveOk` also excludes `int` overflow of the updated y and wrap-around of the `size_t` sums. It also bounds the scroll to at most 25 rows, because for more rows the `size_t` length 80 * (25 - y) of terminal.c:58 wraps and memmove copies about 4 GiB. The move as written reaches that bound on an ordinary long line (see "## Findings"). With the corrected column no putchar or newline from a cursor on the page needs more than one row (`PutcharKeepsCursorOnPage`).
- Terminal.Terminal.Putchar: `PutcharOk` is `MoveOk` of the move putchar makes, so it carries the 25-row scroll bound of the MoveRel line. From a cursor on the page, which every putchar and newline keeps, it always holds (`PutcharKeepsCursorOnPage`). For other states it excludes the cases that would reach the wrapped memmove, for example column 2079 on row 24 (`LongLineScrollWraps`). The object holds only the 2000 cells of the page. A store to cells 2000-3999 goes to the colour text memory past the page (0xB8000-0xBFFFF is 32 KiB). It is reached only from a state whose cursor is off the page. terminal.c never reads those cells, so `PutEntryAt` and `PutcharSpec` leave the page unchanged for them, and the model does not keep what they hold (`CursorCellInTextMemory`).
- Terminal.Terminal.Write: `data` is shorter than 2^32 (a `size_t` length). `WriteOk` requires each character to meet `PutcharOk`. From a cursor on the page this holds for every text (`WriteAlwaysDefined`).
- Terminal.Terminal.ScrollDown: y is at most 25. Larger values make the `size_t` length passed to memmove wrap around, and are outside the model. The move as written can request them (see "## Findings").
- The printf loop body is split into the methods `PrintLiteral`, `PrintPiece` and `Step`. This is so the loop invariant can name the rest of the scan. The code's `goto error` is the `break` after `writtenLen := -1`.
- Printf.Print: `print` casts each character to `unsigned char` before `putchar` (printf.c:47,50). The model hands the sink the `char` of the format or `%s` string unchanged. This is the same only for characters below 256, and the model does not reduce larger Dafny characters modulo 256.
- Printk.StackWalk: the pointer is compared with `stack_top` without 32-bit wrap-around. When `stack_top` lies within 3 bytes of 2^32, the real `(uint32_t)stack_ptr` of printk.c:83 can wrap to a small value after `stack_ptr++` (printk.c:89) and the walk goes on. The model stops the walk there instead.
- The errno TODOs at printf.c:64,83,121,135,190 have no behaviour and are not modelled.
