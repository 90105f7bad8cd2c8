/** scanner.c: the instruction-set tables, the lookups over them, and the
    translation of an operand list into per-word field descriptors. */
module Scanner {
  import opened CString
  import opened Handle

  /** The four directive names. */
  const Directives: seq<string> := [".data", ".string", ".extern", ".entry"]

  /** A register name and its number, one more than the register index. */
  datatype Register = Register(name: string, num: int)

  const Registers: seq<Register> :=
    [Register("r0", 1), Register("r1", 2), Register("r2", 3), Register("r3", 4),
     Register("r4", 5), Register("r5", 6), Register("r6", 7), Register("r7", 8)]

  /** An opcode: its name, number, operand count and the legal target and
      source addressing modes (-1 pads a list, -2 stands for an absent operand). */
  datatype Opcode = Opcode(name: string, code: int, argNum: int, targetTypes: seq<int>, sourceTypes: seq<int>)

  const Opcodes: seq<Opcode> := [
    Opcode("mov", 0, 2, [1, 2, 3, -1], [0, 1, 2, 3]),
    Opcode("cmp", 1, 2, [0, 1, 2, 3], [0, 1, 2, 3]),
    Opcode("add", 2, 2, [1, 2, 3, -1], [0, 1, 2, 3]),
    Opcode("sub", 3, 2, [1, 2, 3, -1], [0, 1, 2, 3]),
    Opcode("lea", 4, 2, [1, 2, 3, -1], [1, -2, -2, -2]),
    Opcode("clr", 5, 1, [1, 2, 3, -1], [-2, -2, -2, -2]),
    Opcode("not", 6, 1, [1, 2, 3, -1], [-2, -2, -2, -2]),
    Opcode("inc", 7, 1, [1, 2, 3, -1], [-2, -2, -2, -2]),
    Opcode("dec", 8, 1, [1, 2, 3, -1], [-2, -2, -2, -2]),
    Opcode("jmp", 9, 1, [1, 2, -1, -1], [-2, -2, -2, -2]),
    Opcode("bne", 10, 1, [1, 2, -1, -1], [-2, -2, -2, -2]),
    Opcode("red", 11, 1, [1, 2, 3, -1], [-2, -2, -2, -2]),
    Opcode("prn", 12, 1, [0, 1, 2, 3], [-2, -2, -2, -2]),
    Opcode("jsr", 13, 1, [1, 2, -1, -1], [-2, -2, -2, -2]),
    Opcode("rts", 14, 0, [-2, -2, -2, -2], [-2, -2, -2, -2]),
    Opcode("stop", 15, 0, [-2, -2, -2, -2], [-2, -2, -2, -2])
  ]

  /** The operand prefixes: '#' immediate (0), '*' indirect register (2), 'r' register (3). */
  datatype Prefix = Prefix(first: char, mode: int)

  const ArgPrefixes: seq<Prefix> := [Prefix('#', 0), Prefix('*', 2), Prefix('r', 3)]

  /** The character C code sees at the start of a string: the terminator for "". */
  function FirstChar(s: string): char {
    if s == [] then '\0' else s[0]
  }

  /** The table search of instr_detection from entry `i` on. */
  function DirectiveFrom(s: string, i: nat): bool
    requires i <= |Directives|
    decreases |Directives| - i
  {
    i < |Directives| && (s == Directives[i] || DirectiveFrom(s, i + 1))
  }

  /** instr_detection (scanner.c:45-60). */
  function InstrDetection(s: string): (r: bool)
    ensures r <==> s in {".data", ".string", ".extern", ".entry"}
  {
    DirectiveFrom(s, 0)
  }

  /** The table search of opcode_detection and validateParameters: the first
      opcode from entry `i` on whose name is `s`. */
  function FindOpcode(s: string, i: nat := 0): (r: Option<nat>)
    requires i <= |Opcodes|
    ensures r.Some? ==> i <= r.value < |Opcodes| && Opcodes[r.value].name == s
    ensures r.None? ==> forall j | i <= j < |Opcodes| :: Opcodes[j].name != s
    decreases |Opcodes| - i
  {
    if i == |Opcodes| then None
    else if Opcodes[i].name == s then Some(i)
    else FindOpcode(s, i + 1)
  }

  /** The sixteen mnemonics. */
  const OpcodeNames: set<string> :=
    {"mov", "cmp", "add", "sub", "lea", "clr", "not", "inc", "dec", "jmp", "bne", "red", "prn", "jsr", "rts", "stop"}

  /** opcode_detection (scanner.c:91-106). */
  function OpcodeDetection(s: string): (r: bool)
    ensures r <==> s in OpcodeNames
  {
    OpcodeNamesListed(s);
    FindOpcode(s).Some?
  }

  /** No mnemonic starts with '.', so no directive is an opcode. */
  lemma DotNotOpcode(s: string)
    requires s != [] && s[0] == '.'
    ensures !OpcodeDetection(s)
  {
    assert forall n | n in OpcodeNames :: n[0] != '.';
  }

  lemma OpcodeNamesListed(s: string)
    ensures s in OpcodeNames <==> exists i | 0 <= i < |Opcodes| :: Opcodes[i].name == s
  {
    NamedOpcodeListed(s);
    ListedOpcodeNamed(s);
  }

  lemma NamedOpcodeListed(s: string)
    ensures s in OpcodeNames ==> exists i | 0 <= i < |Opcodes| :: Opcodes[i].name == s
  {
    if s in OpcodeNames {
      if s in {"mov", "cmp", "add", "sub"} { NamedOpcodeListedFrom(s, 0); }
      else if s in {"lea", "clr", "not", "inc"} { NamedOpcodeListedFrom(s, 4); }
      else if s in {"dec", "jmp", "bne", "red"} { NamedOpcodeListedFrom(s, 8); }
      else { NamedOpcodeListedFrom(s, 12); }
    }
  }

  /** Each group of four mnemonics sits at entries `from` to `from + 3`. */
  lemma NamedOpcodeListedFrom(s: string, from: nat)
    requires from in {0, 4, 8, 12}
    requires s in OpcodeNames
    requires from == 0 ==> s in {"mov", "cmp", "add", "sub"}
    requires from == 4 ==> s in {"lea", "clr", "not", "inc"}
    requires from == 8 ==> s in {"dec", "jmp", "bne", "red"}
    requires from == 12 ==> s in {"prn", "jsr", "rts", "stop"}
    ensures exists i | 0 <= i < |Opcodes| :: Opcodes[i].name == s
  {
    if from == 0 {
      if s == "mov" { assert Opcodes[0].name == s; }
      else if s == "cmp" { assert Opcodes[1].name == s; }
      else if s == "add" { assert Opcodes[2].name == s; }
      else if s == "sub" { assert Opcodes[3].name == s; }
    }
    else if from == 4 {
      if s == "lea" { assert Opcodes[4].name == s; }
      else if s == "clr" { assert Opcodes[5].name == s; }
      else if s == "not" { assert Opcodes[6].name == s; }
      else if s == "inc" { assert Opcodes[7].name == s; }
    }
    else if from == 8 {
      if s == "dec" { assert Opcodes[8].name == s; }
      else if s == "jmp" { assert Opcodes[9].name == s; }
      else if s == "bne" { assert Opcodes[10].name == s; }
      else if s == "red" { assert Opcodes[11].name == s; }
    }
    else if from == 12 {
      if s == "prn" { assert Opcodes[12].name == s; }
      else if s == "jsr" { assert Opcodes[13].name == s; }
      else if s == "rts" { assert Opcodes[14].name == s; }
      else if s == "stop" { assert Opcodes[15].name == s; }
    }
  }

  lemma ListedOpcodeNamed(s: string)
    ensures (exists i | 0 <= i < |Opcodes| :: Opcodes[i].name == s) ==> s in OpcodeNames
  {
    if exists i | 0 <= i < |Opcodes| :: Opcodes[i].name == s {
      var i :| 0 <= i < |Opcodes| && Opcodes[i].name == s;
      if i == 0 {} else if i == 1 {} else if i == 2 {} else if i == 3 {} else if i == 4 {} else if i == 5 {} else if i == 6 {} else if i == 7 {} else if i == 8 {} else if i == 9 {} else if i == 10 {} else if i == 11 {} else if i == 12 {} else if i == 13 {} else if i == 14 {} else {}
    }
  }

  /** Every opcode's number is its place in the table. */
  lemma OpcodeCodeIsIndex(i: nat)
    requires i < |Opcodes|
    ensures Opcodes[i].code == i
  {
  }

  /** The mnemonics are distinct, so the table search finds the only match. */
  lemma OpcodeNamesDistinct(i: nat, j: nat)
    requires i < |Opcodes| && j < |Opcodes| && Opcodes[i].name == Opcodes[j].name
    ensures i == j
  {
  }

  /** No opcode admits an undetermined (-3) mode, and an opcode that admits an
      absent target admits only an absent source. */
  lemma OpcodeTableShape(i: nat)
    requires i < |Opcodes|
    ensures |Opcodes[i].targetTypes| == 4 && |Opcodes[i].sourceTypes| == 4
    ensures -3 !in Opcodes[i].targetTypes && -3 !in Opcodes[i].sourceTypes
    ensures -2 in Opcodes[i].targetTypes ==> Opcodes[i].sourceTypes == [-2, -2, -2, -2]
  {
    if i == 0 {} else if i == 1 {} else if i == 2 {} else if i == 3 {} else if i == 4 {} else if i == 5 {} else if i == 6 {} else if i == 7 {} else if i == 8 {} else if i == 9 {} else if i == 10 {} else if i == 11 {} else if i == 12 {} else if i == 13 {} else if i == 14 {} else {}
  }

  /** The number of the named opcode, 0 when there is none. */
  function OpcodeCode(name: string): (c: int)
    ensures 0 <= c < |Opcodes|
    ensures FindOpcode(name).Some? ==> Opcodes[c].name == name
  {
    match FindOpcode(name)
    case Some(i) => (OpcodeCodeIsIndex(i); Opcodes[i].code)
    case None => 0
  }

  /** "rk" for a register index k in 0..7. */
  predicate IsRegisterName(s: string) {
    |s| == 2 && s[0] == 'r' && '0' <= s[1] <= '7'
  }

  /** The table search of reg_detection from entry `i` on. */
  function RegFrom(s: string, i: nat): int
    requires i <= |Registers|
    decreases |Registers| - i
  {
    if i == |Registers| then 0
    else if s == Registers[i].name then Registers[i].num
    else RegFrom(s, i + 1)
  }

  /** reg_detection (scanner.c:108-122): k+1 for "rk", 0 for anything else. */
  function RegDetection(s: string): (r: int)
    ensures r == if IsRegisterName(s) then (s[1] as int - '0' as int) + 1 else 0
  {
    RegFromIsIndex(s);
    RegFrom(s, 0)
  }

  lemma RegFromIsIndex(s: string)
    ensures RegFrom(s, 0) == if IsRegisterName(s) then (s[1] as int - '0' as int) + 1 else 0
  {
    if IsRegisterName(s) {
      var k := s[1] as int - '0' as int;
      assert s == Registers[k].name;
    } else {
      assert forall i | 0 <= i < |Registers| :: s != Registers[i].name;
    }
  }

  /** endsWithColon (scanner.c:124-130): the word is a name followed by a
      colon (the name may be empty). */
  function EndsWithColon(s: string): (r: bool)
    ensures r <==> exists name :: s == name + ":"
  {
    if s != [] && s[|s| - 1] == ':' then
      assert s == s[..|s| - 1] + ":";
      true
    else false
  }

  /** extra_char_detection (scanner.c:132-160): a second token under strtok(" "). */
  function ExtraCharDetection(s: string): (r: bool)
    ensures r <==> exists i, j, k | 0 <= i < j < k < |s| :: s[i] != ' ' && s[j] == ' ' && s[k] != ' '
  {
    TokensTwoOrMore(s, {' '});
    |Tokens(s, {' '})| >= 2
  }

  /** is_instruction (scanner.c:161-164): the word starts with a dot; the
      empty word does not, as C reads its terminating NUL there. */
  function IsInstruction(s: string): (r: bool)
    ensures r <==> exists rest :: s == "." + rest
  {
    if FirstChar(s) == '.' then
      assert s == "." + s[1..];
      true
    else false
  }

  /** The loop of is_alphanumeric_string from index `i` on. */
  function AlnumFrom(s: string, i: nat): (r: bool)
    requires i <= |s|
    ensures r <==> forall j | i <= j < |s| :: IsAlnum(s[j])
    decreases |s| - i
  {
    i == |s| || (IsAlnum(s[i]) && AlnumFrom(s, i + 1))
  }

  /** is_alphanumeric_string (scanner.c:399-407). */
  function IsAlphanumericString(s: string): (r: bool)
    ensures r <==> forall c | c in s :: IsAlnum(c)
  {
    AlnumFrom(s, 0)
  }

  /** is_valid_label (first_pass_help.c:91-98). */
  function IsValidLabel(s: string): bool {
    !InstrDetection(s) && !OpcodeDetection(s) && RegDetection(s) == 0
    && !ExtraCharDetection(s) && IsAlpha(FirstChar(s)) && IsAlphanumericString(s)
  }

  /** A label is a letter followed by letters and digits that is no directive,
      mnemonic or register name; the extra-token test never decides. */
  lemma ValidLabelIff(s: string)
    ensures IsValidLabel(s) <==>
              s != [] && IsAlpha(s[0]) && (forall c | c in s :: IsAlnum(c))
              && s !in OpcodeNames && !IsRegisterName(s)
  {
    if s != [] && forall c | c in s :: IsAlnum(c) {
      AlnumHasNoSpace(s);
      assert s[0] in s;
      assert !InstrDetection(s);
    }
  }

  /** A word of letters and digits holds no space, so no second token. */
  lemma AlnumHasNoSpace(s: string)
    requires forall c | c in s :: IsAlnum(c)
    ensures !ExtraCharDetection(s)
  {
    assert forall j | 0 <= j < |s| :: s[j] in s;
  }

  /** The loop of check_operand_start over the prefix table from entry `i` on. */
  function PrefixFrom(c: char, i: nat): bool
    requires i <= |ArgPrefixes|
    decreases |ArgPrefixes| - i
  {
    i < |ArgPrefixes| && (c == ArgPrefixes[i].first || PrefixFrom(c, i + 1))
  }

  /** check_operand_start (scanner.c:372-380). */
  function CheckOperandStart(operand: string): (r: bool)
    ensures r <==> operand != [] && operand[0] in {'#', '*', 'r'}
  {
    PrefixFrom(FirstChar(operand), 0)
  }

  /** The loop of is_rest_of_line_valid from index `i` on. */
  function SpacesFrom(s: string, i: nat): (r: bool)
    requires i <= |s|
    ensures r <==> forall j | i <= j < |s| :: IsSpace(s[j])
    decreases |s| - i
  {
    i == |s| || (IsSpace(s[i]) && SpacesFrom(s, i + 1))
  }

  /** is_rest_of_line_valid (scanner.c:382-397). */
  function IsRestOfLineValid(s: string): (r: bool)
    ensures r <==> forall c | c in s :: IsSpace(c)
  {
    SpacesFrom(s, 0)
  }

  /** The number of operands in an operand list: none for empty text, else one more than its commas. */
  function OperandCount(rest: string): nat {
    if rest == [] then 0 else Count(rest, ',') + 1
  }

  /** Some opcode of that name takes exactly as many operands as the list holds. */
  predicate ArityMatches(name: string, rest: string) {
    exists i | 0 <= i < |Opcodes| :: Opcodes[i].name == name && Opcodes[i].argNum == OperandCount(rest)
  }

  /** valid_num_argument (scanner.c:166-194): the comma layout must be valid and
      the operand count must be the named opcode's. On success `code` is that
      opcode's number; on failure the caller's 0 is left. */
  method ValidNumArgument(name: string, rest: string) returns (ok: bool, code: int)
    ensures ok <==> CheckValidDataComma(rest) && ArityMatches(name, rest)
    ensures ok ==> 0 <= code < |Opcodes| && Opcodes[code].name == name
    ensures !ok ==> code == 0
  {
    code := 0;
    if !CheckValidDataComma(rest) {
      return false, 0;
    }
    var count := 0;
    if rest != [] {
      var p := 0;
      while p < |rest|
        invariant p <= |rest|
        invariant count + Count(rest[p..], ',') == Count(rest, ',')
      {
        assert rest[p..][1..] == rest[p + 1..];
        if rest[p] == ',' {
          count := count + 1;
        }
        p := p + 1;
      }
      count := count + 1;
    }
    assert count == OperandCount(rest);
    var i := 0;
    while i < |Opcodes|
      invariant i <= |Opcodes|
      invariant forall j | 0 <= j < i :: !(Opcodes[j].name == name && Opcodes[j].argNum == count)
    {
      if name == Opcodes[i].name && Opcodes[i].argNum == count {
        OpcodeCodeIsIndex(i);
        return true, Opcodes[i].code;
      }
      i := i + 1;
    }
    return false, 0;
  }

  /** For a well-formed operand list the operand count is the number of
      comma-separated operands strtok finds. */
  lemma {:induction false} OperandCountIsTokens(rest: string)
    requires rest != [] && CheckValidDataComma(rest)
    ensures OperandCount(rest) == |Tokens(rest, {','})|
    decreases |rest|
  {
    var k := CSpan(rest, {','});
    if k == |rest| {
      assert forall c | c in rest :: c !in {','};
      TokensOfPlain(rest, {','});
    } else {
      FirstOperandStep(rest, k);
      OperandCountIsTokens(rest[k + 1..]);
    }
  }
  /** The mode a table prefix gives the character `c` after the first `n`
      rounds of identifyAddressingMode's loop, starting from `init`. */
  function ScanPrefixes(c: char, n: nat, init: int): int
    requires n <= |ArgPrefixes|
  {
    if n == 0 then init
    else if ArgPrefixes[n - 1].first == c then ArgPrefixes[n - 1].mode
    else ScanPrefixes(c, n - 1, init)
  }

  /** The addressing mode of one operand: 0 after '#', 2 after '*', 3 after 'r';
      an undetermined (-3) operand that is a valid label becomes 1; otherwise
      the incoming mode stays (-2 for an absent operand). */
  function ModeOf(arg: string, init: int): (m: int)
    requires init in {-3, -2}
    ensures arg == [] ==> m == init
    ensures m == 1 ==> init == -3 && IsValidLabel(arg)
    ensures m in {0, 2, 3} ==> arg != [] && m == (if arg[0] == '#' then 0 else if arg[0] == '*' then 2 else 3)
  {
    var c := FirstChar(arg);
    var p := if c == '#' then 0 else if c == '*' then 2 else if c == 'r' then 3 else init;
    if p == -3 && IsValidLabel(arg) then 1 else p
  }

  lemma ScanAllPrefixes(c: char, init: int)
    ensures ScanPrefixes(c, 3, init) == if c == '#' then 0 else if c == '*' then 2 else if c == 'r' then 3 else init
  {
    assert ScanPrefixes(c, 1, init) == if c == '#' then 0 else init;
    assert ScanPrefixes(c, 2, init) == if c == '*' then 2 else ScanPrefixes(c, 1, init);
  }

  /** identifyAddressingMode (scanner.c:316-337). */
  method IdentifyAddressingMode(source: string, target: string, sourceInit: int, targetInit: int)
    returns (sourceMode: int, targetMode: int)
    requires sourceInit in {-3, -2} && targetInit in {-3, -2}
    ensures sourceMode == ModeOf(source, sourceInit)
    ensures targetMode == ModeOf(target, targetInit)
  {
    sourceMode, targetMode := sourceInit, targetInit;
    var cs, ct := FirstChar(source), FirstChar(target);
    var i := 0;
    while i < 3
      invariant i <= 3
      invariant sourceMode == ScanPrefixes(cs, i, sourceInit)
      invariant targetMode == ScanPrefixes(ct, i, targetInit)
    {
      if ArgPrefixes[i].first == cs {
        sourceMode := ArgPrefixes[i].mode;
      }
      if ArgPrefixes[i].first == ct {
        targetMode := ArgPrefixes[i].mode;
      }
      i := i + 1;
    }
    ScanAllPrefixes(cs, sourceInit);
    ScanAllPrefixes(ct, targetInit);
    if sourceMode == -3 && IsValidLabel(source) {
      sourceMode := 1;
    }
    if targetMode == -3 && IsValidLabel(target) {
      targetMode := 1;
    }
  }

  /** Any operand starting with 'r' is taken as a register, so a label such as
      "rate" can never be used as an operand. */
  lemma LabelStartingWithRIsRegisterMode()
    ensures IsValidLabel("rate") && ModeOf("rate", -3) == 3
  {
    RateIsValidLabel();
    ModeOfRegisterPrefix("rate");
  }

  lemma RateIsValidLabel()
    ensures IsValidLabel("rate")
  {
    ValidLabelIff("rate");
    assert "rate" !in OpcodeNames;
  }

  /** An operand starting with 'r' is in register mode, whatever follows. */
  lemma ModeOfRegisterPrefix(arg: string)
    requires arg != [] && arg[0] == 'r'
    ensures ModeOf(arg, -3) == 3
  {
  }

  /** detection_argument (scanner.c:340-348), applied to an operand without its
      first character: an integer's value, a register's index, or -1. */
  function DetectionArgument(arg: string): (r: int)
    ensures IsValidInteger(arg) ==> r == Atoi(arg)
    ensures !IsValidInteger(arg) ==> r == if IsRegisterName(arg) then arg[1] as int - '0' as int else -1
  {
    if IsValidInteger(arg) then Atoi(arg)
    else if RegDetection(arg) != 0 then RegDetection(arg) - 1
    else -1
  }

  /** The digit after 'r' is read as a number, so register operands name their index. */
  lemma DetectionArgumentOfIndex(n: int)
    ensures DetectionArgument(IntToString(n)) == n
  {
    IntToStringIsValidInteger(n);
    AtoiIntToString(n);
  }

  /** Entry `i` of the table is the named opcode and admits the target mode. */
  predicate TargetAt(i: nat, name: string, targetMode: int)
    requires i < |Opcodes|
  {
    Opcodes[i].name == name && targetMode in Opcodes[i].targetTypes
  }

  /** Entry `i` of the table is the named opcode and admits both modes. */
  predicate LegalAt(i: nat, name: string, sourceMode: int, targetMode: int)
    requires i < |Opcodes|
  {
    TargetAt(i, name, targetMode) && sourceMode in Opcodes[i].sourceTypes
  }

  /** A mode pair is legal for the named opcode: the target mode is among its
      target types and the source mode among its source types. */
  predicate ModesLegal(name: string, sourceMode: int, targetMode: int) {
    exists i | 0 <= i < |Opcodes| :: LegalAt(i, name, sourceMode, targetMode)
  }

  /** Some entry below `n` is the named opcode and admits the target mode. */
  predicate TargetBelow(n: nat, name: string, targetMode: int)
    requires n <= |Opcodes|
  {
    n > 0 && (TargetBelow(n - 1, name, targetMode) || TargetAt(n - 1, name, targetMode))
  }

  /** Some entry below `n` is the named opcode and admits both modes. */
  predicate LegalBelow(n: nat, name: string, sourceMode: int, targetMode: int)
    requires n <= |Opcodes|
  {
    n > 0 && (LegalBelow(n - 1, name, sourceMode, targetMode) || LegalAt(n - 1, name, sourceMode, targetMode))
  }

  lemma {:induction false} TargetBelowIff(n: nat, name: string, targetMode: int)
    requires n <= |Opcodes|
    ensures TargetBelow(n, name, targetMode) <==> exists i | 0 <= i < n :: TargetAt(i, name, targetMode)
  {
    if n > 0 {
      TargetBelowIff(n - 1, name, targetMode);
    }
  }

  lemma {:induction false} LegalBelowIff(n: nat, name: string, sourceMode: int, targetMode: int)
    requires n <= |Opcodes|
    ensures LegalBelow(n, name, sourceMode, targetMode) <==> exists i | 0 <= i < n :: LegalAt(i, name, sourceMode, targetMode)
  {
    if n > 0 {
      LegalBelowIff(n - 1, name, sourceMode, targetMode);
    }
  }

  /** The entry carrying the name is the one the table search finds. */
  lemma MatchedEntry(i: nat, name: string)
    requires i < |Opcodes| && Opcodes[i].name == name
    ensures FindOpcode(name) == Some(i) && OpcodeCode(name) == Opcodes[i].code
  {
    OpcodeCodeIsIndex(i);
    OpcodeNamesDistinct(i, FindOpcode(name).value);
  }

  /** The two nested loops of validateParameters for one table entry: the
      target flag is raised when the target mode is listed, the source flag
      when, in addition, the source mode is listed. */
  method MatchModes(op: Opcode, targetMode: int, sourceMode: int, validTarget0: bool, validSource0: bool)
    returns (validTarget: bool, validSource: bool)
    requires |op.targetTypes| == 4 && |op.sourceTypes| == 4
    ensures validTarget == (validTarget0 || targetMode in op.targetTypes)
    ensures validSource == (validSource0 || (targetMode in op.targetTypes && sourceMode in op.sourceTypes))
  {
    validTarget, validSource := validTarget0, validSource0;
    var j := 0;
    while j < 4
      invariant j <= 4
      invariant validTarget == (validTarget0 || targetMode in op.targetTypes[..j])
      invariant validSource == (validSource0 || (targetMode in op.targetTypes[..j] && sourceMode in op.sourceTypes))
    {
      if targetMode == op.targetTypes[j] {
        validTarget := true;
        var k := 0;
        while k < 4
          invariant k <= 4
          invariant validSource == (validSource0 || (targetMode in op.targetTypes[..j] && sourceMode in op.sourceTypes)
                                    || sourceMode in op.sourceTypes[..k])
        {
          if sourceMode == op.sourceTypes[k] {
            validSource := true;
          }
          assert op.sourceTypes[..k + 1] == op.sourceTypes[..k] + [op.sourceTypes[k]];
          k := k + 1;
        }
        assert op.sourceTypes[..4] == op.sourceTypes;
      }
      assert op.targetTypes[..j + 1] == op.targetTypes[..j] + [op.targetTypes[j]];
      j := j + 1;
    }
    assert op.targetTypes[..4] == op.targetTypes;
  }

  /** One round of the outer loop of validateParameters: entry `i` is
      compared with the name and, on a match, its modes are checked and its
      number kept. */
  method VisitEntry(i: nat, name: string, targetMode: int, sourceMode: int, validTarget0: bool, validSource0: bool, code0: int)
    returns (validTarget: bool, validSource: bool, code: int)
    requires i < |Opcodes|
    requires validSource0 == LegalBelow(i, name, sourceMode, targetMode)
    requires validTarget0 == TargetBelow(i, name, targetMode)
    requires code0 == if FindOpcode(name).Some? && FindOpcode(name).value < i then OpcodeCode(name) else 0
    ensures validSource == LegalBelow(i + 1, name, sourceMode, targetMode)
    ensures validTarget == TargetBelow(i + 1, name, targetMode)
    ensures code == if FindOpcode(name).Some? && FindOpcode(name).value < i + 1 then OpcodeCode(name) else 0
  {
    validTarget, validSource, code := validTarget0, validSource0, code0;
    if name == Opcodes[i].name {
      OpcodeTableShape(i);
      MatchedEntry(i, name);
      code := Opcodes[i].code;
      validTarget, validSource := MatchModes(Opcodes[i], targetMode, sourceMode, validTarget, validSource);
    }
  }

  /** validateParameters (scanner.c:350-371): legal exactly when the named
      opcode admits both modes; `code` is that opcode's number. */
  method ValidateParameters(name: string, targetMode: int, sourceMode: int) returns (ok: bool, code: int)
    ensures ok <==> ModesLegal(name, sourceMode, targetMode)
    ensures code == OpcodeCode(name)
  {
    var validSource, validTarget := false, false;
    code := 0;
    var i := 0;
    while i < |Opcodes|
      invariant i <= |Opcodes|
      invariant validSource == LegalBelow(i, name, sourceMode, targetMode)
      invariant validTarget == TargetBelow(i, name, targetMode)
      invariant code == if FindOpcode(name).Some? && FindOpcode(name).value < i then OpcodeCode(name) else 0
    {
      validTarget, validSource, code := VisitEntry(i, name, targetMode, sourceMode, validTarget, validSource, code);
      i := i + 1;
    }
    LegalBelowIff(|Opcodes|, name, sourceMode, targetMode);
    TargetBelowIff(|Opcodes|, name, targetMode);
    return validSource && validTarget, code;
  }

  /** The field descriptors parsing_arg writes for one instruction: the first
      word "op,src,tgt", and for the operand words a decimal value (12-bit
      field), a comma list of register fields (3-bit fields), "" for a label
      resolved in the second pass, or "NULL" for a word that is not emitted. */
  datatype Descriptors = Descriptors(first: string, second: string, third: string, size1: nat, size2: nat, size3: nat)

  /** How one operand word is described in a role: `regField` places the
      register number in the source or in the target field. */
  function OperandDescriptor(mode: int, value: int, regField: string -> string): (string, nat)
  {
    if mode == 0 then (IntToString(value), 12)
    else if mode > 1 then (regField(IntToString(value)), 3)
    else ("", 0)
  }

  /** The descriptors of scanner.c:253-309 for legal modes and operand values.
      Modes outside those cases leave the caller's cleared buffers ("") and
      zero sizes, as the source does. */
  function BuildDescriptors(code: int, src: int, tgt: int, ns: int, nt: int): Descriptors
  {
    var first := IntToString(code) + "," + IntToString(src) + "," + IntToString(tgt);
    var asTarget := (r: string) => "0,0,0," + r;
    var asSource := (r: string) => "0,0," + r + ",0";
    if src > 1 && tgt > 1 then
      Descriptors(first, "0,0," + IntToString(ns) + "," + IntToString(nt), "NULL", 4, 3, 0)
    else if src == -2 then
      var (second, size2) := if tgt == -2 then ("NULL", 0) else OperandDescriptor(tgt, nt, asTarget);
      Descriptors(first, second, "NULL", 4, size2, 0)
    else
      var (second, size2) := OperandDescriptor(src, ns, asSource);
      var (third, size3) := if tgt == -2 then ("", 0) else OperandDescriptor(tgt, nt, asTarget);
      Descriptors(first, second, third, 4, size2, size3)
  }

  /** The source and target operand texts and their starting modes: none for an
      empty list, the text around the first comma, or a lone target. */
  function SplitOperands(args: string): (string, string, int, int)
  {
    if args == [] then ("", "", -2, -2)
    else match IndexOf(args, ',')
      case Some(k) => (args[..k], args[k + 1..], -3, -3)
      case None => ("", args, -2, -3)
  }

  /** The value detection_argument gives an operand of a determined mode, else 0. */
  function OperandValue(arg: string, mode: int): int {
    if mode != -3 && mode != -2 && arg != [] then DetectionArgument(arg[1..]) else 0
  }

  /** The rest of parsing_arg once both operands are classified. */
  function ParseClassified(name: string, source: string, target: string, src: int, tgt: int): Option<Descriptors>
  {
    var ns := OperandValue(source, src);
    var nt := OperandValue(target, tgt);
    if ns == -1 && src != 1 then None
    else if nt == -1 && tgt != 1 then None
    else if !ModesLegal(name, src, tgt) then None
    else Some(BuildDescriptors(OpcodeCode(name), src, tgt, ns, nt))
  }

  /** parsing_arg (scanner.c:196-314) as a value: None when an operand that is
      not a label has no value (-1) or the modes are not legal for the opcode. */
  function ParseOperands(name: string, args: string): (r: Option<Descriptors>)
  {
    var (source, target, src0, tgt0) := SplitOperands(args);
    ParseClassified(name, source, target, ModeOf(source, src0), ModeOf(target, tgt0))
  }

  /** parsing_arg (scanner.c:196-314): splits at the first comma, classifies
      both operands, reads their values, validates the modes and writes the
      descriptors. */
  method ParsingArg(name: string, args: string) returns (r: Option<Descriptors>)
    ensures r == ParseOperands(name, args)
  {
    var source, target := "", "";
    var src, tgt := -3, -3;
    if args == [] {
      src, tgt := -2, -2;
    } else {
      match IndexOf(args, ',') {
        case Some(k) =>
          source, target := args[..k], args[k + 1..];
        case None =>
          target := args;
          src := -2;
      }
    }
    assert (source, target, src, tgt) == SplitOperands(args);
    src, tgt := IdentifyAddressingMode(source, target, src, tgt);
    var ns, nt := 0, 0;
    if src != -3 && src != -2 {
      ns := DetectionArgument(source[1..]);
    }
    if tgt != -3 && tgt != -2 {
      nt := DetectionArgument(target[1..]);
    }
    assert ns == OperandValue(source, src) && nt == OperandValue(target, tgt);
    if ns == -1 && src != 1 {
      return None;
    }
    if nt == -1 && tgt != 1 {
      return None;
    }
    var ok, code := ValidateParameters(name, tgt, src);
    if !ok {
      return None;
    }
    return Some(BuildDescriptors(code, src, tgt, ns, nt));
  }

  /** Every accepted instruction has a first-word descriptor "op,src,tgt" of
      the named opcode and legal modes. */
  lemma ParsedFirstWord(name: string, args: string)
    requires ParseOperands(name, args).Some?
    ensures exists src, tgt | ModesLegal(name, src, tgt) ::
              ParseOperands(name, args).value.first == IntToString(OpcodeCode(name)) + "," + IntToString(src) + "," + IntToString(tgt)
    ensures ParseOperands(name, args).value.size1 == 4
  {
    var (source, target, src0, tgt0) := SplitOperands(args);
    var src := ModeOf(source, src0);
    var tgt := ModeOf(target, tgt0);
    assert ModesLegal(name, src, tgt);
  }

  /** The number of words an accepted instruction occupies: the descriptors
      other than "NULL". */
  function WordCount(d: Descriptors): nat {
    1 + (if d.second != "NULL" then 1 else 0) + (if d.third != "NULL" then 1 else 0)
  }

  /** An instruction occupies one word, plus one per operand, except that two
      register-class operands (modes 2 and 3) share one word. */
  lemma ParsedWordCount(name: string, args: string)
    requires ParseOperands(name, args).Some?
    ensures var (source, target, src0, tgt0) := SplitOperands(args);
            var src := ModeOf(source, src0);
            var tgt := ModeOf(target, tgt0);
            WordCount(ParseOperands(name, args).value)
              == 1 + (if src != -2 then 1 else 0) + (if tgt != -2 then 1 else 0) - (if src > 1 && tgt > 1 then 1 else 0)
  {
    var (source, target, src0, tgt0) := SplitOperands(args);
    var src := ModeOf(source, src0);
    var tgt := ModeOf(target, tgt0);
    LegalModes(name, src, tgt);
    BuildWordCount(OpcodeCode(name), src, tgt, OperandValue(source, src), OperandValue(target, tgt));
  }

  /** Legal modes are determined, and an absent target comes with an absent source. */
  lemma LegalModes(name: string, src: int, tgt: int)
    requires ModesLegal(name, src, tgt)
    ensures src != -3 && tgt != -3 && (tgt == -2 ==> src == -2)
  {
    var i :| 0 <= i < |Opcodes| && LegalAt(i, name, src, tgt);
    OpcodeTableShape(i);
  }

  lemma NotNull(n: int)
    ensures IntToString(n) != "NULL"
    ensures "0,0,0," + IntToString(n) != "NULL"
  {
    assert "NULL"[0] == 'N';
    assert "NULL"[0] !in IntToString(n);
    assert ("0,0,0," + IntToString(n))[0] == '0';
  }

  lemma BuildWordCount(code: int, src: int, tgt: int, ns: int, nt: int)
    requires src in {-2, 0, 1, 2, 3} && tgt in {-2, 0, 1, 2, 3} && (tgt == -2 ==> src == -2)
    ensures WordCount(BuildDescriptors(code, src, tgt, ns, nt))
              == 1 + (if src != -2 then 1 else 0) + (if tgt != -2 then 1 else 0) - (if src > 1 && tgt > 1 then 1 else 0)
  {
    NotNull(ns);
    NotNull(nt);
    assert ("0,0," + IntToString(ns) + ",0")[0] == '0';
  }

  /** An immediate operand with a negative value is refused: "#-1" reads as -1. */
  lemma ImmediateMinusOneRefused()
    ensures ParseOperands("prn", "#-1") == None
  {
    var args := "#-1";
    assert IndexOf(args, ',') == None;
    assert ModeOf(args, -3) == 0;
    assert IsValidInteger("-1");
    assert Atoi("-1") == -1 by {
      AtoiOfValidInteger("-1");
      assert Unsigned("-1") == "1";
    }
  }

  /** Register numbers are not range-checked: "r9" is accepted as register 9. */
  lemma RegisterNineAccepted()
    ensures ParseOperands("clr", "r9").Some?
    ensures ParseOperands("clr", "r9").value.second == "0,0,0,9"
  {
    NineParse();
    TargetRegisterNine(OpcodeCode("clr"));
  }

  lemma NineParse()
    ensures ParseOperands("clr", "r9") == Some(BuildDescriptors(OpcodeCode("clr"), -2, 3, 0, 9))
  {
    var args := "r9";
    assert IndexOf(args, ',') == None;
    ModeOfRegisterPrefix(args);
    assert DetectionArgument("9") == 9 by {
      DetectionArgumentOfIndex(9);
      assert IntToString(9) == "9";
    }
    assert args[1..] == "9";
    assert ModesLegal("clr", -2, 3) by {
      assert LegalAt(5, "clr", -2, 3);
    }
    ParseOfTargetOnly("clr", args, 3, 9);
  }

  /** A lone register target 9 is described as "0,0,0,9". */
  lemma TargetRegisterNine(code: int)
    ensures BuildDescriptors(code, -2, 3, 0, 9).second == "0,0,0,9"
  {
    assert IntToString(9) == "9";
  }

  /** parsing_arg on a single operand, which is the target, of known mode and value. */
  lemma ParseOfTargetOnly(name: string, args: string, tgt: int, nt: int)
    requires args != [] && IndexOf(args, ',') == None
    requires ModeOf(args, -3) == tgt && OperandValue(args, tgt) == nt
    requires nt != -1 || tgt == 1
    requires ModesLegal(name, -2, tgt)
    ensures ParseOperands(name, args) == Some(BuildDescriptors(OpcodeCode(name), -2, tgt, 0, nt))
  {
  }

  /** Indirect-register operands share one word just like direct registers. */
  lemma IndirectRegistersPacked()
    ensures ParseOperands("mov", "*r1,*r2").Some?
    ensures ParseOperands("mov", "*r1,*r2").value.second == "0,0,1,2"
    ensures ParseOperands("mov", "*r1,*r2").value.third == "NULL"
  {
    IndirectParse();
    RegisterPairOneTwo(OpcodeCode("mov"));
  }

  lemma IndirectParse()
    ensures ParseOperands("mov", "*r1,*r2") == Some(BuildDescriptors(OpcodeCode("mov"), 2, 2, 1, 2))
  {
    IndirectSplit();
    ModeOfIndirect("*r1");
    ModeOfIndirect("*r2");
    IndirectValue("*r1", "r1");
    IndirectValue("*r2", "r2");
    assert ModesLegal("mov", 2, 2) by {
      assert LegalAt(0, "mov", 2, 2);
    }
    ParseOfTwoOperands("mov", "*r1,*r2", "*r1", "*r2", 2, 2, 1, 2);
  }

  /** parsing_arg on a comma-separated pair whose operands have known modes and values. */
  lemma ParseOfTwoOperands(name: string, args: string, source: string, target: string, src: int, tgt: int, ns: int, nt: int)
    requires SplitOperands(args) == (source, target, -3, -3)
    requires ModeOf(source, -3) == src && ModeOf(target, -3) == tgt
    requires OperandValue(source, src) == ns && OperandValue(target, tgt) == nt
    requires (ns != -1 || src == 1) && (nt != -1 || tgt == 1)
    requires ModesLegal(name, src, tgt)
    ensures ParseOperands(name, args) == Some(BuildDescriptors(OpcodeCode(name), src, tgt, ns, nt))
  {
  }

  lemma IndirectSplit()
    ensures SplitOperands("*r1,*r2") == ("*r1", "*r2", -3, -3)
  {
    var args := "*r1,*r2";
    assert IndexOf(args, ',') == Some(3);
    assert args[..3] == "*r1" && args[4..] == "*r2";
  }

  /** An operand starting with '*' is in indirect-register mode. */
  lemma ModeOfIndirect(arg: string)
    requires arg != [] && arg[0] == '*'
    ensures ModeOf(arg, -3) == 2
  {
  }

  /** Registers 1 and 2 share the single word "0,0,1,2". */
  lemma RegisterPairOneTwo(code: int)
    ensures BuildDescriptors(code, 2, 2, 1, 2).second == "0,0,1,2"
    ensures BuildDescriptors(code, 2, 2, 1, 2).third == "NULL"
  {
    assert IntToString(1) == "1" && IntToString(2) == "2";
  }

  /** The value of an indirect register operand "*rk" is k. */
  lemma IndirectValue(arg: string, reg: string)
    requires |arg| == 3 && arg[0] == '*' && arg[1..] == reg && IsRegisterName(reg)
    ensures OperandValue(arg, 2) == reg[1] as int - '0' as int
  {
    assert !IsValidInteger(reg) by {
      assert reg[0] in Unsigned(reg);
    }
  }
}
