/** The object listing: print_memory (first_pass.c:190-204) writes the words
    in binary after a header, and copyAndConvertFile (first_pass_help.c:497-531)
    turns each word line into a four-digit address and a five-digit octal value. */
module Output {
  import opened CString
  import opened Encode
  import opened FirstPassHelp
  import opened FirstPass

  /** The ten spaces print_memory puts between an address and its word. */
  const Gap: string := "          "

  /** "   %d %d\n": the number of code words and of data words. */
  function Header(ic: int, dc: int): string {
    "   " + IntToString(ic - ICInit) + " " + IntToString(dc) + "\n"
  }

  /** "%d          %s\n": one word of the listing. */
  function MemoryLine(address: int, bits: string): string {
    IntToString(address) + Gap + bits + "\n"
  }

  function CodeLines(code: seq<CodeWord>): (r: seq<string>)
    ensures |r| == |code|
  {
    seq(|code|, k requires 0 <= k < |code| => MemoryLine(code[k].address, code[k].bits))
  }

  function DataLines(data: seq<DataWord>): (r: seq<string>)
    ensures |r| == |data|
  {
    seq(|data|, k requires 0 <= k < |data| => MemoryLine(data[k].address, data[k].bits))
  }

  /** The data image placed after the code: every address moved by `ic`. */
  function Relocated(data: seq<DataWord>, ic: int): (r: seq<DataWord>)
    ensures |r| == |data|
    ensures forall k | 0 <= k < |r| :: r[k].address == data[k].address + ic
                                      && r[k].bits == data[k].bits && r[k].line == data[k].line
  {
    seq(|data|, k requires 0 <= k < |data| => data[k].(address := data[k].address + ic))
  }

  /** The listing print_memory writes: the header, the code words in list
      order, then the data words. */
  function Listing(code: seq<CodeWord>, data: seq<DataWord>, ic: int, dc: int): (r: seq<string>)
    ensures |r| == 1 + |code| + |data|
  {
    [Header(ic, dc)] + CodeLines(code) + DataLines(data)
  }

  /** print_memory (first_pass.c:190-204): it writes the listing and moves
      every data word's stored address by IC, in place. */
  method PrintMemory(m: Memory, ic: int, dc: int) returns (out: seq<string>)
    modifies m
    ensures m.data == Relocated(old(m.data), ic)
    ensures m.code == old(m.code) && m.labels == old(m.labels)
    ensures out == Listing(m.code, m.data, ic, dc)
  {
    var codeLines := PrintCode(m.code);
    var dataLines := RelocateData(m, ic);
    out := [Header(ic, dc)] + codeLines + dataLines;
  }

  /** The first loop of print_memory: one line per code word, in list order. */
  method PrintCode(code: seq<CodeWord>) returns (out: seq<string>)
    ensures out == CodeLines(code)
  {
    out := [];
    var i := 0;
    while i < |code|
      invariant i <= |code|
      invariant out == CodeLines(code[..i])
    {
      assert CodeLines(code[..i + 1]) == CodeLines(code[..i]) + [MemoryLine(code[i].address, code[i].bits)];
      out := out + [MemoryLine(code[i].address, code[i].bits)];
      i := i + 1;
    }
    assert code[..i] == code;
  }

  /** The second loop of print_memory: each data word's address is moved by
      `ic` in place and its line written with the new address. */
  method RelocateData(m: Memory, ic: int) returns (out: seq<string>)
    modifies m
    ensures m.data == Relocated(old(m.data), ic)
    ensures m.code == old(m.code) && m.labels == old(m.labels)
    ensures out == DataLines(m.data)
  {
    out := [];
    ghost var original := m.data;
    var j := 0;
    while j < |m.data|
      invariant j <= |m.data| == |original|
      invariant m.code == old(m.code) && m.labels == old(m.labels)
      invariant m.data[..j] == Relocated(original[..j], ic)
      invariant m.data[j..] == original[j..]
      invariant out == DataLines(m.data[..j])
    {
      assert m.data[j] == original[j] by { assert m.data[j..][0] == original[j..][0]; }
      m.data := m.data[j := m.data[j].(address := m.data[j].address + ic)];
      assert m.data[..j + 1] == m.data[..j] + [m.data[j]];
      assert original[..j + 1] == original[..j] + [original[j]];
      assert DataLines(m.data[..j + 1]) == DataLines(m.data[..j]) + [MemoryLine(m.data[j].address, m.data[j].bits)];
      out := out + [MemoryLine(m.data[j].address, m.data[j].bits)];
      j := j + 1;
    }
    assert m.data[..j] == m.data;
    assert original[..j] == original;
  }

  // ---------------------------------------------------------------------
  // Numerals

  /** b to the power k. */
  function Power(b: nat, k: nat): (p: nat)
    ensures b >= 1 ==> p >= 1
  {
    if k == 0 then 1 else b * Power(b, k - 1)
  }

  /** The digits printf writes for `n` in base `b` ("%u" for 10, "%o" for 8),
      most significant first, with no leading zero. */
  function Radix(n: nat, b: nat): (s: string)
    requires 2 <= b <= 10
    ensures s != [] && forall c | c in s :: IsDigit(c) && DigitValue(c) < b
  {
    if n < b then [DigitChar(n)]
    else
      DivSmaller(n, b);
      var high, low := Radix(n / b, b), DigitChar(n % b);
      DigitsAppend(high, low, b);
      high + [low]
  }

  lemma DigitsAppend(high: string, low: char, b: nat)
    requires forall c | c in high :: IsDigit(c) && DigitValue(c) < b
    requires IsDigit(low) && DigitValue(low) < b
    ensures forall c | c in high + [low] :: IsDigit(c) && DigitValue(c) < b
  {
  }

  /** The number a string of base-`b` digits stands for. */
  function RadixValue(s: string, b: nat): nat
    requires forall c | c in s :: IsDigit(c)
  {
    if s == [] then 0 else b * RadixValue(s[..|s| - 1], b) + DigitValue(s[|s| - 1])
  }

  lemma DivMod(n: nat, b: nat)
    requires b > 0
    ensures n == b * (n / b) + n % b
  {
  }

  lemma DivSmaller(n: nat, b: nat)
    requires b >= 2 && n >= 1
    ensures n / b < n
  {
    DivMod(n, b);
    AtLeastTwice(b, n / b);
  }

  lemma {:induction false} AtLeastTwice(b: nat, q: nat)
    requires b >= 2
    ensures b * q >= 2 * q
  {
    if q > 0 {
      AtLeastTwice(b, q - 1);
      assert b * q == b * (q - 1) + b;
    }
  }

  lemma RadixStep(n: nat, b: nat)
    requires 2 <= b <= 10 && n >= b
    ensures RadixValue(Radix(n, b), b) == b * RadixValue(Radix(n / b, b), b) + n % b
  {
    var s := Radix(n / b, b) + [DigitChar(n % b)];
    assert s[..|s| - 1] == Radix(n / b, b);
  }

  /** Reading the digits back gives the number printed. */
  lemma {:induction false} RadixRoundTrip(n: nat, b: nat)
    requires 2 <= b <= 10
    ensures RadixValue(Radix(n, b), b) == n
  {
    if n >= b {
      RadixStep(n, b);
      DivSmaller(n, b);
      RadixRoundTrip(n / b, b);
      DivMod(n, b);
    }
  }

  /** A number below b^k needs at most k digits. */
  lemma {:induction false} RadixLength(n: nat, b: nat, k: nat)
    requires 2 <= b <= 10 && 1 <= k && n < Power(b, k)
    ensures |Radix(n, b)| <= k
  {
    if n >= b {
      assert Power(b, 1) == b;
      assert Power(b, k) == b * Power(b, k - 1);
      DivBelow(n, b, Power(b, k - 1));
      RadixLength(n / b, b, k - 1);
    }
  }

  lemma DivBelow(n: nat, b: nat, p: nat)
    requires b >= 1 && n < b * p
    ensures n / b < p
  {
    var q := n / b;
    assert b * q <= n;
    assert b * (p - q) > 0;
  }

  /** The zero padding of "%0<width>": zeros in front up to `width` characters. */
  function PadZeros(s: string, width: nat): (r: string)
    ensures |r| == if |s| >= width then |s| else width
    ensures r[|r| - |s|..] == s
  {
    if |s| >= width then s else seq(width - |s|, _ => '0') + s
  }

  /** Leading zeros do not change the value. */
  lemma {:induction false} LeadingZerosValue(z: nat, s: string, b: nat)
    requires forall c | c in s :: IsDigit(c)
    ensures RadixValue(seq(z, _ => '0') + s, b) == RadixValue(s, b)
    decreases |s|
  {
    var t := seq(z, _ => '0') + s;
    if s == [] {
      assert t == seq(z, _ => '0');
      ZerosRadixValue(z, b);
    } else {
      assert t[..|t| - 1] == seq(z, _ => '0') + s[..|s| - 1];
      LeadingZerosValue(z, s[..|s| - 1], b);
    }
  }

  lemma {:induction false} ZerosRadixValue(z: nat, b: nat)
    ensures RadixValue(seq(z, _ => '0'), b) == 0
  {
    if z > 0 {
      assert seq(z, _ => '0')[..z - 1] == seq(z - 1, _ => '0');
      ZerosRadixValue(z - 1, b);
    }
  }

  lemma PadZerosValue(s: string, width: nat, b: nat)
    requires forall c | c in s :: IsDigit(c)
    ensures forall c | c in PadZeros(s, width) :: IsDigit(c)
    ensures RadixValue(PadZeros(s, width), b) == RadixValue(s, b)
  {
    if |s| < width {
      LeadingZerosValue(width - |s|, s, b);
    }
  }

  // ---------------------------------------------------------------------
  // copyAndConvertFile

  /** "%05o" of what binaryToOctal gives a word, or "00001" for a word still
      empty (a label operand nobody resolved). */
  function OctalWord(bits: string): string {
    if bits == [] then "00001" else PadZeros(Radix(BinaryValue(bits) % UintRange, 8), 5)
  }

  /** "%04u %05o\n" (or "%04u 00001\n"): the object-file line of the word
      print_memory listed at `address`, the address read back as unsigned. */
  function ObjectLine(address: int, bits: string): string {
    AddressField(address) + " " + OctalWord(bits) + "\n"
  }

  /** "%04u" of the address read back as unsigned. */
  function AddressField(address: int): string {
    PadZeros(Radix(address % UintRange, 10), 4)
  }

  function CodeObjects(code: seq<CodeWord>): (r: seq<string>)
    ensures |r| == |code|
  {
    seq(|code|, k requires 0 <= k < |code| => ObjectLine(code[k].address, code[k].bits))
  }

  function DataObjects(data: seq<DataWord>): (r: seq<string>)
    ensures |r| == |data|
  {
    seq(|data|, k requires 0 <= k < |data| => ObjectLine(data[k].address, data[k].bits))
  }

  lemma CodeObjectsSnoc(code: seq<CodeWord>, i: nat)
    requires i < |code|
    ensures CodeObjects(code[..i + 1]) == CodeObjects(code[..i]) + [ObjectLine(code[i].address, code[i].bits)]
  {
    var a, b := CodeObjects(code[..i + 1]), CodeObjects(code[..i]) + [ObjectLine(code[i].address, code[i].bits)];
    forall k | 0 <= k < |a|
      ensures a[k] == b[k]
    {
      assert code[..i + 1][k] == code[k];
    }
  }

  lemma DataObjectsSnoc(data: seq<DataWord>, j: nat)
    requires j < |data|
    ensures DataObjects(data[..j + 1]) == DataObjects(data[..j]) + [ObjectLine(data[j].address, data[j].bits)]
  {
    var a, b := DataObjects(data[..j + 1]), DataObjects(data[..j]) + [ObjectLine(data[j].address, data[j].bits)];
    forall k | 0 <= k < |a|
      ensures a[k] == b[k]
    {
      assert data[..j + 1][k] == data[k];
    }
  }

  /** The object file for a listing: the header copied, then one line per
      listed word, code first. */
  function ObjectFile(header: string, code: seq<CodeWord>, data: seq<DataWord>): (r: seq<string>)
    ensures |r| == 1 + |code| + |data|
  {
    [header] + CodeObjects(code) + DataObjects(data)
  }

  /** The per-word rule of copyAndConvertFile (first_pass_help.c:517-529). */
  method ConvertWord(address: int, bits: string) returns (line: string)
    ensures line == ObjectLine(address, bits)
  {
    var shown := AddressField(address);
    if bits == [] {
      line := shown + " 00001\n";
    } else {
      var octal := BinaryToOctal(bits);
      line := shown + " " + PadZeros(Radix(octal, 8), 5) + "\n";
    }
  }

  /** copyAndConvertFile (first_pass_help.c:497-531) on the words
      print_memory listed after `header`. */
  method CopyAndConvertFile(header: string, code: seq<CodeWord>, data: seq<DataWord>) returns (lines: seq<string>)
    ensures lines == ObjectFile(header, code, data)
  {
    var codeLines := ConvertCode(code);
    var dataLines := ConvertData(data);
    lines := [header] + codeLines + dataLines;
  }

  /** The loop of copyAndConvertFile over the code words. */
  method ConvertCode(code: seq<CodeWord>) returns (lines: seq<string>)
    ensures lines == CodeObjects(code)
  {
    lines := [];
    var i := 0;
    while i < |code|
      invariant i <= |code|
      invariant lines == CodeObjects(code[..i])
    {
      var line := ConvertWord(code[i].address, code[i].bits);
      CodeObjectsSnoc(code, i);
      lines := lines + [line];
      i := i + 1;
    }
    assert code[..i] == code;
  }

  /** The loop of copyAndConvertFile over the data words. */
  method ConvertData(data: seq<DataWord>) returns (lines: seq<string>)
    ensures lines == DataObjects(data)
  {
    lines := [];
    var j := 0;
    while j < |data|
      invariant j <= |data|
      invariant lines == DataObjects(data[..j])
    {
      var line := ConvertWord(data[j].address, data[j].bits);
      DataObjectsSnoc(data, j);
      lines := lines + [line];
      j := j + 1;
    }
    assert data[..j] == data;
  }

  // ---------------------------------------------------------------------
  // What the object file promises

  /** Five octal digits hold exactly fifteen bits. */
  lemma EightToTheFive()
    ensures Power(8, 5) == Pow2(15)
  {
    assert Pow2(15) == 32768;
    assert Power(8, 5) == 32768;
  }

  /** A 15-bit word prints as exactly five octal digits worth the word's value. */
  lemma OctalWordOfWord(bits: string)
    requires |bits| == 15
    ensures |OctalWord(bits)| == 5
    ensures forall c | c in OctalWord(bits) :: IsDigit(c)
    ensures RadixValue(OctalWord(bits), 8) == BinaryValue(bits)
  {
    var v := BinaryValue(bits);
    SmallValue(bits);
    EightToTheFive();
    RadixLength(v, 8, 5);
    RadixRoundTrip(v, 8);
    PadZerosValue(Radix(v, 8), 5, 8);
  }

  /** A data word shows its value modulo 2^15: a negative number its two's
      complement. */
  lemma DataWordOctal(value: int)
    ensures RadixValue(OctalWord(Field(15, value)), 8) == value % Pow2(15)
  {
    OctalWordOfWord(Field(15, value));
    DecimalThenOctal(15, value);
    SmallValue(Field(15, value));
  }

  /** An address below 10000 prints as exactly four decimal digits that read
      back as the address. */
  lemma AddressDigits(address: int)
    requires 0 <= address < 10000
    ensures var shown := AddressField(address);
            |shown| == 4 && (forall c | c in shown :: IsDigit(c)) && RadixValue(shown, 10) == address
  {
    assert address % UintRange == address;
    assert Power(10, 4) == 10000;
    RadixLength(address, 10, 4);
    RadixRoundTrip(address, 10);
    PadZerosValue(Radix(address, 10), 4, 10);
  }

  /** A line of the object file: the address field, a space, the octal
      field, a newline (with AddressDigits and OctalFieldOfWord, four digits
      that read back as the address and five worth the word). */
  lemma ObjectLineLayout(address: int, bits: string)
    ensures var line := ObjectLine(address, bits);
            && line[..|AddressField(address)|] == AddressField(address)
            && line[|AddressField(address)|] == ' '
            && line[|AddressField(address)| + 1..|line| - 1] == OctalWord(bits)
            && line[|line| - 1] == '\n'
  {
    var shown := AddressField(address);
    var rest := " " + OctalWord(bits) + "\n";
    assert ObjectLine(address, bits) == shown + rest;
    PrefixOfConcat(shown, rest);
    assert rest[1..|rest| - 1] == OctalWord(bits);
  }

  lemma PrefixOfConcat(a: string, b: string)
    ensures (a + b)[..|a|] == a && (a + b)[|a|..] == b
  {
  }

  /** The octal field: "00001" for an empty word, otherwise for a 15-bit
      word five digits worth the word's value. */
  lemma OctalFieldOfWord(bits: string)
    requires |bits| == 15 || bits == []
    ensures |OctalWord(bits)| == 5
    ensures bits == [] ==> OctalWord(bits) == "00001"
    ensures bits != [] ==> RadixValue(OctalWord(bits), 8) == BinaryValue(bits)
  {
    if bits != [] {
      OctalWordOfWord(bits);
    }
  }
}
