/** The diagnostics of printk.c: the fixed-width hexadecimal encoder and the
    kernel stack report. The register reads (ESP, EBP) and the linker symbols
    (stack_bottom, stack_top) are parameters; memory is a byte array that the
    report only reads. */
module Printk {
  import opened CTypes

  /** `hex_chars` of print_hex. */
  const HexChars: seq<char> := "0123456789ABCDEF"

  function Pow16(n: nat): (p: nat)
    ensures p >= 1
  {
    if n == 0 then 1 else 16 * Pow16(n - 1)
  }

  /** The n low-order hexadecimal digits of v, most significant first. */
  function HexDigits(v: nat, n: nat): (s: seq<char>)
    ensures |s| == n
  {
    if n == 0 then [] else HexDigits(v / 16, n - 1) + [HexChars[v % 16]]
  }

  /** The 10 characters print_hex hands to printk: "0x" and 8 digits. */
  function HexText(v: u32): (s: seq<char>)
    ensures |s| == 10 && s[..2] == "0x"
  {
    "0x" + HexDigits(v, 8)
  }

  /** The value of a hexadecimal digit (upper case), and of a digit string. */
  function HexValue(c: char): nat
  {
    if '0' <= c <= '9' then c as nat - '0' as nat
    else if 'A' <= c <= 'F' then c as nat - 'A' as nat + 10
    else 0
  }

  function ParseHex(s: seq<char>): nat
  {
    if s == [] then 0 else ParseHex(s[..|s| - 1]) * 16 + HexValue(s[|s| - 1])
  }

  lemma HexValueOfDigit(d: nat)
    requires d < 16
    ensures HexValue(HexChars[d]) == d
  {
  }

  /** Quotient and remainder are determined by the division equation. */
  lemma DivModUnique(v: int, m: int, a: int, b: int)
    requires m > 0 && 0 <= b < m && v == m * a + b
    ensures v / m == a && v % m == b
  {
    var q, r := v / m, v % m;
    assert m * (a - q) == r - b;
    if a - q >= 1 {
      MulAtLeast(m, a - q);
    } else if q - a >= 1 {
      MulAtLeast(m, q - a);
    }
  }

  lemma {:induction false} MulAtLeast(m: int, x: int)
    requires m > 0 && x >= 1
    ensures m * x >= m
    decreases x
  {
    if x > 1 {
      MulAtLeast(m, x - 1);
      assert m * x == m * (x - 1) + m;
    }
  }

  /** Dividing by 16 and then by p is dividing by 16 * p, and the remainders
      combine accordingly. */
  lemma DivSplit(v: nat, p: nat)
    requires p >= 1
    ensures v / 16 / p == v / (16 * p)
    ensures (v / 16) % p * 16 + v % 16 == v % (16 * p)
  {
    var q, r := v / 16, v % 16;
    var a, b := q / p, q % p;
    assert q == p * a + b;
    assert v == (16 * p) * a + (16 * b + r);
    DivModUnique(v, 16 * p, a, 16 * b + r);
  }

  /** Parsing n digits back yields v modulo 16^n. */
  lemma {:induction false} ParseHexDigits(v: nat, n: nat)
    ensures ParseHex(HexDigits(v, n)) == v % Pow16(n)
  {
    if n > 0 {
      var s := HexDigits(v, n);
      assert s[..|s| - 1] == HexDigits(v / 16, n - 1);
      ParseHexDigits(v / 16, n - 1);
      HexValueOfDigit(v % 16);
      DivSplit(v, Pow16(n - 1));
    }
  }

  /** Digit n - 1 - k of HexDigits(v, n) is nibble k of v. */
  lemma {:induction false} HexDigitsNibble(v: nat, n: nat, k: nat)
    requires k < n
    ensures HexDigits(v, n)[n - 1 - k] == HexChars[(v / Pow16(k)) % 16]
  {
    if k > 0 {
      HexDigitsNibble(v / 16, n - 1, k - 1);
      DivSplit(v, Pow16(k - 1));
    }
  }

  /** Every digit print_hex emits is an upper-case hexadecimal digit. */
  lemma {:induction false} HexDigitsAreDigits(v: nat, n: nat)
    ensures forall i :: 0 <= i < n ==> HexDigits(v, n)[i] in HexChars
  {
    if n > 0 {
      HexDigitsAreDigits(v / 16, n - 1);
    }
  }

  /** print_hex output: position 9 - k holds nibble k of the value. */
  lemma HexTextNibbles(v: u32)
    ensures forall k :: 0 <= k < 8 ==> HexText(v)[9 - k] == HexChars[(v / Pow16(k)) % 16]
  {
    forall k | 0 <= k < 8
      ensures HexText(v)[9 - k] == HexChars[(v / Pow16(k)) % 16]
    {
      HexDigitsNibble(v, 8, k);
    }
  }

  /** The 8 digits are upper-case hexadecimal digits. */
  lemma HexTextUpperCase(v: u32)
    ensures forall i :: 2 <= i < 10 ==> HexText(v)[i] in HexChars
  {
    HexDigitsAreDigits(v, 8);
  }

  /** Reading the 8 digits back in base 16 gives the value. */
  lemma HexTextRoundTrip(v: u32)
    ensures ParseHex(HexText(v)[2..]) == v
  {
    assert HexText(v)[2..] == HexDigits(v, 8);
    ParseHexDigits(v, 8);
    Pow16Word();
    WordMod(v);
  }

  lemma Pow16Word()
    ensures Pow16(8) == TWO32
  {
  }

  lemma WordMod(v: u32)
    ensures v % TWO32 == v
  {
  }

  /** Zero is printed zero-padded. */
  lemma HexTextZero()
    ensures HexText(0) == "0x00000000"
  {
  }

  /** printk.c:24-40: fills buffer[9] down to buffer[2] from the low nibble
      up, shifting the value right by 4 each step. Returns the C string
      in buffer. */
  method PrintHex(value: u32) returns (text: seq<char>)
    ensures text == HexText(value)
  {
    var buffer := new char[11];
    buffer[0] := '0';
    buffer[1] := 'x';
    var v: nat := value;
    var i := 9;
    while i >= 2
      invariant 1 <= i <= 9
      invariant buffer[0] == '0' && buffer[1] == 'x'
      invariant HexDigits(value, 8) == HexDigits(v, i - 1) + buffer[i + 1..10]
    {
      buffer[i] := HexChars[v % 16];
      v := v / 16;
      i := i - 1;
    }
    buffer[10] := '\0';
    assert buffer[..10] == ['0', 'x'] + buffer[2..10];
    text := buffer[..10];
  }

  /** The 32-bit word stored little-endian at address a. */
  function Load32(mem: seq<u8>, a: nat): u32
    requires a + 4 <= |mem|
  {
    mem[a] as int + 0x100 * mem[a + 1] as int + 0x1_0000 * mem[a + 2] as int
      + 0x100_0000 * mem[a + 3] as int
  }

  /** One line of the dump: `[ESP+offset]  0xaddress: 0xword`. */
  datatype StackEntry = StackEntry(offset: int, address: u32, word: u32)

  /** The number of words the walk dumps: none when esp is at or past the
      top, else those below the top, at most 16. */
  function WalkLength(esp: u32, top: u32): (n: nat)
    ensures n <= 16
    ensures esp >= top ==> n == 0
    ensures esp < top ==> n >= 1 && esp + 4 * (n - 1) < top
    ensures esp < top && n < 16 ==> esp + 4 * n >= top
  {
    if esp >= top then 0
    else if (top - esp + 3) / 4 < 16 then (top - esp + 3) / 4 else 16
  }

  /** printk.c:81-90: walks up from esp in 4-byte steps while fewer than
      16 words are shown and the pointer is below stack_top. */
  method StackWalk(esp: u32, top: u32, mem: array<u8>) returns (entries: seq<StackEntry>)
    requires top + 3 <= mem.Length
    ensures |entries| == WalkLength(esp, top)
    ensures forall i :: 0 <= i < |entries| ==>
      esp + 4 * i < top &&
      entries[i] == StackEntry(4 * i, esp + 4 * i, Load32(mem[..], esp + 4 * i))
  {
    entries := [];
    var i := 0;
    var stackPtr: nat := esp;
    while i < 16 && stackPtr < top
      invariant 0 <= i <= 16 && stackPtr == esp + 4 * i
      invariant i == 0 || esp + 4 * (i - 1) < top
      invariant |entries| == i
      invariant forall k :: 0 <= k < i ==>
        esp + 4 * k < top &&
        entries[k] == StackEntry(4 * k, esp + 4 * k, Load32(mem[..], esp + 4 * k))
    {
      entries := entries + [StackEntry(i * 4, stackPtr, Load32(mem[..], stackPtr))];
      stackPtr := stackPtr + 4;
      i := i + 1;
    }
  }

  /** `uint32_t` subtraction, which wraps modulo 2^32. */
  function Sub32(a: u32, b: u32): (r: u32)
    ensures (b + r) % TWO32 == a
    ensures b <= a ==> r == a - b
  {
    (a - b) % TWO32
  }

  /** What print_kernel_stack reports: the four addresses as print_hex
      text, the region size and the used size, and the dumped words. */
  datatype StackReport = StackReport(
    bottomHex: seq<char>, topHex: seq<char>, espHex: seq<char>, ebpHex: seq<char>,
    size: u32, used: u32, entries: seq<StackEntry>)

  /** printk.c:46-93 without the register reads and the text layout. */
  method PrintKernelStack(esp: u32, ebp: u32, bottom: u32, top: u32, mem: array<u8>)
    returns (report: StackReport)
    requires top + 3 <= mem.Length
    ensures report.bottomHex == HexText(bottom) && report.topHex == HexText(top)
    ensures report.espHex == HexText(esp) && report.ebpHex == HexText(ebp)
    ensures report.size == Sub32(top, bottom) && report.used == Sub32(top, esp)
    ensures |report.entries| == WalkLength(esp, top)
    ensures forall i :: 0 <= i < |report.entries| ==>
      report.entries[i] == StackEntry(4 * i, esp + 4 * i, Load32(mem[..], esp + 4 * i))
  {
    var bottomHex := PrintHex(bottom);
    var topHex := PrintHex(top);
    var espHex := PrintHex(esp);
    var ebpHex := PrintHex(ebp);
    var entries := StackWalk(esp, top, mem);
    report := StackReport(bottomHex, topHex, espHex, ebpHex, Sub32(top, bottom), Sub32(top, esp), entries);
  }
}
