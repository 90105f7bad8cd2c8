/** The second pass (second_pass.c, second_pass_help.c): a second scan of
    the lines that writes label addresses into the words the first pass left
    empty, and collects the entry and extern records. */
module SecondPass {
  import opened CString
  import opened Handle
  import opened Scanner
  import opened Encode
  import opened FirstPassHelp

  /** A line of the entry or the extern file: a label name and an address. */
  datatype Record = Record(name: string, address: int)

  /** The word of an external operand: address 0 and the E bit. */
  const ExternWord: string := "000000000000001"

  /** The first word of line `line` whose bits are ExternWord, from index `from` on. */
  function FindExternWord(code: seq<CodeWord>, line: int, from: nat := 0): (r: Option<nat>)
    requires from <= |code|
    ensures r.Some? ==> from <= r.value < |code| && code[r.value].line == line && code[r.value].bits == ExternWord
    ensures r.Some? ==> forall k | from <= k < r.value :: !(code[k].line == line && code[k].bits == ExternWord)
    ensures r.None? ==> forall k | from <= k < |code| :: !(code[k].line == line && code[k].bits == ExternWord)
    decreases |code| - from
  {
    if from == |code| then None
    else if code[from].line == line && code[from].bits == ExternWord then Some(from)
    else FindExternWord(code, line, from + 1)
  }

  /** What find_address returns: the address of that word, or 0. */
  function AddressOfExtern(code: seq<CodeWord>, line: int): int {
    match FindExternWord(code, line)
    case Some(k) => code[k].address
    case None => 0
  }

  /** The first word of line `line` still empty, from index `from` on. */
  function FirstEmpty(code: seq<CodeWord>, line: int, from: nat := 0): (r: Option<nat>)
    requires from <= |code|
    ensures r.Some? ==> from <= r.value < |code| && code[r.value].line == line && code[r.value].bits == []
    ensures r.Some? ==> forall k | from <= k < r.value :: !(code[k].line == line && code[k].bits == [])
    ensures r.None? ==> forall k | from <= k < |code| :: !(code[k].line == line && code[k].bits == [])
    decreases |code| - from
  {
    if from == |code| then None
    else if code[from].line == line && code[from].bits == [] then Some(from)
    else FirstEmpty(code, line, from + 1)
  }

  /** The instruction memory after insert_label_address: the first empty
      word of the line gets `bits`; nothing changes if there is none. */
  function Inserted(code: seq<CodeWord>, bits: string, line: int): seq<CodeWord> {
    match FirstEmpty(code, line)
    case Some(k) => code[k := code[k].(bits := bits)]
    case None => code
  }

  /** What check_valid_entry returns: the address of the label, or 0 when
      there is none. */
  function EntryAddress(labels: seq<Label>, name: string): int {
    match FindLabel(labels, name)
    case Some(k) => labels[k].address
    case None => 0
  }

  /** The word written for a label operand: its address in 12 bits and
      "001" for an external label, "010" for any other. */
  function LabelWord(l: Label): string {
    StrToBinary(12, IntToString(l.address), if l.kind == ".external" then "001" else "010")
  }

  /** What pass 2 builds: the patched instruction memory and the two record lists. */
  datatype Pass2 = Pass2(code: seq<CodeWord>, entries: seq<Record>, externs: seq<Record>)

  /** One token of chek_for_label_argument: an operand that does not start
      with '#', '*' or 'r' and names a label has that label's word written
      into the line, and an external label also gets an extern record with
      the address find_address gives after the write. */
  function ResolveToken(st: Pass2, labels: seq<Label>, token: string, line: int): Pass2 {
    if CheckOperandStart(token) then st
    else match FindLabel(labels, token)
      case None => st
      case Some(k) =>
        var l := labels[k];
        var code := Inserted(st.code, LabelWord(l), line);
        if l.kind == ".external" then st.(code := code, externs := st.externs + [Record(l.name, AddressOfExtern(code, line))])
        else st.(code := code)
  }

  /** A token that chek_for_label_argument resolves: it does not start with
      '#', '*' or 'r' and names a label. */
  predicate NamesLabel(labels: seq<Label>, token: string) {
    !CheckOperandStart(token) && FindLabel(labels, token).Some?
  }

  /** The first token, from index `from` on, that names a label. */
  function FirstLabelToken(labels: seq<Label>, tokens: seq<string>, from: nat := 0): (r: Option<nat>)
    requires from <= |tokens|
    ensures r.Some? ==> from <= r.value < |tokens| && NamesLabel(labels, tokens[r.value])
    ensures r.Some? ==> forall k | from <= k < r.value :: !NamesLabel(labels, tokens[k])
    ensures r.None? ==> forall k | from <= k < |tokens| :: !NamesLabel(labels, tokens[k])
    decreases |tokens| - from
  {
    if from == |tokens| then None
    else if NamesLabel(labels, tokens[from]) then Some(from)
    else FirstLabelToken(labels, tokens, from + 1)
  }

  /** chek_for_label_argument over the comma-separated tokens. Only the first
      token that names a label is resolved: convert_str_to_binary runs its
      own strtok over the converted word (first_pass_help.c:269-274), so the
      next strtok(NULL, ",") of the loop continues in that word, whose
      characters are bits, and never returns a later operand. */
  function ResolveTokens(st: Pass2, labels: seq<Label>, tokens: seq<string>, line: int): Pass2 {
    match FirstLabelToken(labels, tokens)
    case None => st
    case Some(i) => ResolveToken(st, labels, tokens[i], line)
  }

  /** chek_for_label_argument on an operand text. */
  function Resolve(st: Pass2, labels: seq<Label>, text: string, line: int): Pass2 {
    ResolveTokens(st, labels, Tokens(text, {','}), line)
  }

  /** One iteration of the loop of implement_second_pass (second_pass.c:47-74). */
  function SecondStep(st: Pass2, labels: seq<Label>, str: string, line: int): Pass2 {
    var first := Word(str, 0);
    var second := Word(str, 1);
    if IsEmptyLine(str) then st
    else if EndsWithColon(first) then
      if IsInstruction(second) then st
      else Resolve(st, labels, RestAfterTwoWords(str), line)
    else if OpcodeDetection(first) then Resolve(st, labels, second, line)
    else if first == ".entry" then st.(entries := st.entries + [Record(second, EntryAddress(labels, second))])
    else st
  }

  /** The pass-2 state after the loop has read `lines`, numbered from 1. */
  function SecondRun(st: Pass2, labels: seq<Label>, lines: seq<string>): Pass2 {
    if lines == [] then st
    else SecondStep(SecondRun(st, labels, lines[..|lines| - 1]), labels, lines[|lines| - 1], |lines|)
  }

  lemma SecondRunSnoc(st: Pass2, labels: seq<Label>, lines: seq<string>, i: nat)
    requires i < |lines|
    ensures SecondRun(st, labels, lines[..i + 1]) == SecondStep(SecondRun(st, labels, lines[..i]), labels, lines[i], i + 1)
  {
    assert lines[..i + 1][..i] == lines[..i];
  }

  /** "%s           %d\n", a line of the entry file. */
  function EntryLine(r: Record): string {
    r.name + "           " + IntToString(r.address) + "\n"
  }

  /** "%s          %d\n", a line of the extern file. */
  function ExternLine(r: Record): string {
    r.name + "          " + IntToString(r.address) + "\n"
  }

  /** A record file, or None when nothing was written and the file is removed. */
  function RecordFile(records: seq<Record>, entry: bool): (r: Option<seq<string>>)
    ensures r.None? <==> records == []
    ensures r.Some? ==> |r.value| == |records|
  {
    if records == [] then None
    else Some(seq(|records|, k requires 0 <= k < |records| =>
                    if entry then EntryLine(records[k]) else ExternLine(records[k])))
  }

  // ---------------------------------------------------------------------
  // The routines of second_pass_help.c

  /** find_address (second_pass_help.c:92-107). */
  method FindAddress(m: Memory, line: int) returns (address: int)
    ensures address == AddressOfExtern(m.code, line)
  {
    var i := 0;
    while i < |m.code|
      invariant i <= |m.code|
      invariant FindExternWord(m.code, line) == FindExternWord(m.code, line, i)
    {
      if m.code[i].line == line && m.code[i].bits == ExternWord {
        return m.code[i].address;
      }
      i := i + 1;
    }
    return 0;
  }

  /** insert_label_address (second_pass_help.c:59-73). */
  method InsertLabelAddress(m: Memory, bits: string, line: int)
    modifies m
    ensures m.code == Inserted(old(m.code), bits, line)
    ensures m.labels == old(m.labels) && m.data == old(m.data)
  {
    var i := 0;
    while i < |m.code|
      invariant i <= |m.code|
      invariant FirstEmpty(m.code, line) == FirstEmpty(m.code, line, i)
    {
      if m.code[i].line == line && m.code[i].bits == [] {
        m.code := m.code[i := m.code[i].(bits := bits)];
        return;
      }
      i := i + 1;
    }
  }

  /** check_valid_entry (second_pass_help.c:75-88). */
  method CheckValidEntry(m: Memory, name: string) returns (address: int)
    ensures address == EntryAddress(m.labels, name)
  {
    var found := m.SearchLabelOnList(name);
    if found.Some? {
      return m.labels[found.value].address;
    }
    return 0;
  }

  /** The state the second pass keeps in a memory object and its two outputs. */
  function State2(m: Memory, entries: seq<Record>, externs: seq<Record>): Pass2
    reads m
  {
    Pass2(m.code, entries, externs)
  }

  /** The body of the token loop of chek_for_label_argument
      (second_pass_help.c:30-53) for one operand; `resolved` tells whether the
      token named a label, after which the loop meets no further operand. */
  method ResolveOperand(m: Memory, token: string, line: int, ghost entries: seq<Record>, externs: seq<Record>)
    returns (externs': seq<Record>, resolved: bool)
    modifies m
    ensures State2(m, entries, externs') == ResolveToken(old(State2(m, entries, externs)), m.labels, token, line)
    ensures resolved == NamesLabel(m.labels, token)
    ensures m.labels == old(m.labels) && m.data == old(m.data)
  {
    externs', resolved := externs, false;
    if CheckOperandStart(token) {
      return;
    }
    var found := m.SearchLabelOnList(token);
    if found.Some? {
      var l := m.labels[found.value];
      InsertLabelAddress(m, LabelWord(l), line);
      if l.kind == ".external" {
        var address := FindAddress(m, line);
        externs' := externs' + [Record(l.name, address)];
      }
      resolved := true;
    }
  }

  /** chek_for_label_argument (second_pass_help.c:11-57) on the tokens of its
      operand text; the extern records are appended to `externs`. The loop
      ends after the first token that names a label, where strtok has been
      moved into the converted word. */
  method ChekForLabelArgument(m: Memory, text: string, line: int, ghost entries: seq<Record>, externs: seq<Record>)
    returns (externs': seq<Record>)
    modifies m
    ensures State2(m, entries, externs') == Resolve(old(State2(m, entries, externs)), m.labels, text, line)
    ensures m.labels == old(m.labels) && m.data == old(m.data)
  {
    var tokens := Tokens(text, {','});
    externs' := externs;
    var i := 0;
    while i < |tokens|
      invariant i <= |tokens|
      invariant m.labels == old(m.labels) && m.data == old(m.data)
      invariant State2(m, entries, externs') == old(State2(m, entries, externs))
      invariant FirstLabelToken(m.labels, tokens) == FirstLabelToken(m.labels, tokens, i)
    {
      var resolved;
      externs', resolved := ResolveOperand(m, tokens[i], line, entries, externs');
      if resolved {
        return;
      }
      i := i + 1;
    }
  }

  /** One line of implement_second_pass (second_pass.c:49-72). */
  method SecondLine(m: Memory, str: string, line: int, entries: seq<Record>, externs: seq<Record>)
    returns (entries': seq<Record>, externs': seq<Record>)
    modifies m
    ensures State2(m, entries', externs') == SecondStep(old(State2(m, entries, externs)), m.labels, str, line)
    ensures m.labels == old(m.labels) && m.data == old(m.data)
  {
    entries', externs' := entries, externs;
    var first := Word(str, 0);
    var second := Word(str, 1);
    var rest := RestAfterTwoWords(str);
    if IsEmptyLine(str) {
      return;
    }
    if EndsWithColon(first) {
      if !IsInstruction(second) {
        externs' := ChekForLabelArgument(m, rest, line, entries, externs);
      }
    } else if OpcodeDetection(first) {
      externs' := ChekForLabelArgument(m, second, line, entries, externs);
    } else if first == ".entry" {
      var address := CheckValidEntry(m, second);
      entries' := entries + [Record(second, address)];
    }
  }

  /** implement_second_pass (second_pass.c:10-97) on the lines of the file:
      the memory object is patched in place, the two record files are
      returned (None for a file removed because it stayed empty), and the
      result is always 1. */
  method ImplementSecondPass(m: Memory, lines: seq<string>)
    returns (ok: bool, entFile: Option<seq<string>>, extFile: Option<seq<string>>)
    modifies m
    ensures var r := SecondRun(Pass2(old(m.code), [], []), m.labels, lines);
            && m.code == r.code
            && entFile == RecordFile(r.entries, true)
            && extFile == RecordFile(r.externs, false)
    ensures ok
    ensures m.labels == old(m.labels) && m.data == old(m.data)
  {
    var entries: seq<Record> := [];
    var externs: seq<Record> := [];
    ghost var start := Pass2(m.code, [], []);
    var i := 0;
    while i < |lines|
      invariant i <= |lines|
      invariant m.labels == old(m.labels) && m.data == old(m.data)
      invariant State2(m, entries, externs) == SecondRun(start, m.labels, lines[..i])
    {
      SecondRunSnoc(start, m.labels, lines, i);
      entries, externs := SecondLine(m, lines[i], i + 1, entries, externs);
      i := i + 1;
    }
    assert lines[..i] == lines;
    entFile := RecordFile(entries, true);
    extFile := RecordFile(externs, false);
    ok := true;
  }

  // ---------------------------------------------------------------------
  // What the second pass guarantees

  /** Two instruction memories with the same words at the same addresses
      and lines, in the same order. */
  predicate SameLayout(a: seq<CodeWord>, b: seq<CodeWord>) {
    |a| == |b| && forall k | 0 <= k < |a| :: a[k].address == b[k].address && a[k].line == b[k].line
  }

  /** Only words that were empty can change. */
  predicate FillsOnlyEmpty(a: seq<CodeWord>, b: seq<CodeWord>)
    requires |a| == |b|
  {
    forall k | 0 <= k < |a| :: a[k].bits != [] ==> b[k] == a[k]
  }

  /** insert_label_address changes at most one word: the first empty one of
      the line, which receives `bits`; every other word, every address and
      the order are untouched. */
  lemma InsertedChangesOne(code: seq<CodeWord>, bits: string, line: int)
    ensures var r := Inserted(code, bits, line);
            && SameLayout(code, r) && FillsOnlyEmpty(code, r)
            && match FirstEmpty(code, line)
               case None => r == code
               case Some(i) => r[i].bits == bits && forall k | 0 <= k < |code| && k != i :: r[k] == code[k]
  {
  }

  lemma ResolveTokenKeepsLayout(st: Pass2, labels: seq<Label>, token: string, line: int)
    ensures SameLayout(st.code, ResolveToken(st, labels, token, line).code)
    ensures FillsOnlyEmpty(st.code, ResolveToken(st, labels, token, line).code)
    ensures ResolveToken(st, labels, token, line).entries == st.entries
  {
    forall bits: string
      ensures SameLayout(st.code, Inserted(st.code, bits, line)) && FillsOnlyEmpty(st.code, Inserted(st.code, bits, line))
    {
      InsertedChangesOne(st.code, bits, line);
    }
  }

  lemma ResolveKeepsLayout(st: Pass2, labels: seq<Label>, text: string, line: int)
    ensures SameLayout(st.code, Resolve(st, labels, text, line).code)
    ensures FillsOnlyEmpty(st.code, Resolve(st, labels, text, line).code)
    ensures Resolve(st, labels, text, line).entries == st.entries
  {
    var tokens := Tokens(text, {','});
    match FirstLabelToken(labels, tokens)
    case None =>
    case Some(i) => ResolveTokenKeepsLayout(st, labels, tokens[i], line);
  }

  /** The operand resolved is the first label operand: token i is resolved
      exactly when it names a label and no earlier token does. */
  lemma ResolvedIffFirstLabel(labels: seq<Label>, tokens: seq<string>, i: nat)
    requires i < |tokens|
    ensures FirstLabelToken(labels, tokens) == Some(i)
        <==> NamesLabel(labels, tokens[i]) && forall k | 0 <= k < i :: !NamesLabel(labels, tokens[k])
  {
    match FirstLabelToken(labels, tokens)
    case None =>
    case Some(j) =>
      if j < i {
        assert NamesLabel(labels, tokens[j]);
      } else if i < j {
        assert !NamesLabel(labels, tokens[i]);
      }
  }

  /** An operand text fills at most one word and adds at most one extern
      record, whatever number of label operands it holds. */
  lemma ResolveWritesAtMostOne(st: Pass2, labels: seq<Label>, text: string, line: int)
    ensures var r := Resolve(st, labels, text, line);
            && |r.code| == |st.code|
            && (forall k, j | 0 <= k < j < |st.code| :: r.code[k] == st.code[k] || r.code[j] == st.code[j])
            && r.entries == st.entries
            && |st.externs| <= |r.externs| <= |st.externs| + 1
            && r.externs[..|st.externs|] == st.externs
  {
    var tokens := Tokens(text, {','});
    match FirstLabelToken(labels, tokens)
    case None =>
    case Some(i) =>
      var k := FindLabel(labels, tokens[i]).value;
      InsertedChangesOne(st.code, LabelWord(labels[k]), line);
  }

  /** A line of pass 2 adds, removes and moves no word, and only fills words
      that were empty. */
  lemma SecondStepKeepsLayout(st: Pass2, labels: seq<Label>, str: string, line: int)
    ensures SameLayout(st.code, SecondStep(st, labels, str, line).code)
    ensures FillsOnlyEmpty(st.code, SecondStep(st, labels, str, line).code)
  {
    var first := Word(str, 0);
    var second := Word(str, 1);
    if IsEmptyLine(str) {
    } else if EndsWithColon(first) {
      if !IsInstruction(second) {
        ResolveKeepsLayout(st, labels, RestAfterTwoWords(str), line);
      }
    } else if OpcodeDetection(first) {
      ResolveKeepsLayout(st, labels, second, line);
    }
  }

  /** The whole second pass keeps the layout of the instruction memory. */
  lemma {:induction false} SecondRunKeepsLayout(st: Pass2, labels: seq<Label>, lines: seq<string>)
    ensures SameLayout(st.code, SecondRun(st, labels, lines).code)
    ensures FillsOnlyEmpty(st.code, SecondRun(st, labels, lines).code)
  {
    if lines != [] {
      var mid := SecondRun(st, labels, lines[..|lines| - 1]);
      SecondRunKeepsLayout(st, labels, lines[..|lines| - 1]);
      SecondStepKeepsLayout(mid, labels, lines[|lines| - 1], |lines|);
    }
  }

  /** The number of ".entry" lines among `lines`. */
  function EntryLines(lines: seq<string>): nat {
    if lines == [] then 0
    else EntryLines(lines[..|lines| - 1]) + (if IsEntryLine(lines[|lines| - 1]) then 1 else 0)
  }

  predicate IsEntryLine(str: string) {
    Word(str, 0) == ".entry"
  }

  /** Every ".entry" line writes exactly one record, with the label's address
      or 0 when there is no such label; no other line writes one. */
  lemma EntryRecordPerLine(st: Pass2, labels: seq<Label>, str: string, line: int)
    ensures var r := SecondStep(st, labels, str, line);
            r.entries == st.entries + (if IsEntryLine(str) then [Record(Word(str, 1), EntryAddress(labels, Word(str, 1)))] else [])
  {
    if IsEntryLine(str) {
      EntryLineRecord(st, labels, str, line);
    } else {
      OtherLineNoRecord(st, labels, str, line);
    }
  }

  /** An ".entry" line appends its one record. */
  lemma EntryLineRecord(st: Pass2, labels: seq<Label>, str: string, line: int)
    requires IsEntryLine(str)
    ensures SecondStep(st, labels, str, line).entries == st.entries + [Record(Word(str, 1), EntryAddress(labels, Word(str, 1)))]
  {
    var first := Word(str, 0);
    assert !IsEmptyLine(str) by {
      assert ".entry"[0] in first;
      assert first in Words(str);
    }
    assert !EndsWithColon(first);
    DotNotOpcode(".entry");
  }

  /** Any other line leaves the entry records alone. */
  lemma OtherLineNoRecord(st: Pass2, labels: seq<Label>, str: string, line: int)
    requires !IsEntryLine(str)
    ensures SecondStep(st, labels, str, line).entries == st.entries
  {
    var first := Word(str, 0);
    var second := Word(str, 1);
    if IsEmptyLine(str) {
    } else if EndsWithColon(first) {
      if !IsInstruction(second) {
        ResolveKeepsLayout(st, labels, RestAfterTwoWords(str), line);
      }
    } else if OpcodeDetection(first) {
      ResolveKeepsLayout(st, labels, second, line);
    }
  }

  lemma {:induction false} EntryRecordCount(st: Pass2, labels: seq<Label>, lines: seq<string>)
    ensures |SecondRun(st, labels, lines).entries| == |st.entries| + EntryLines(lines)
  {
    if lines != [] {
      EntryRecordCount(st, labels, lines[..|lines| - 1]);
      EntryRecordPerLine(SecondRun(st, labels, lines[..|lines| - 1]), labels, lines[|lines| - 1], |lines|);
    }
  }

  /** The address written for an external label is 12 zero bits and "001". */
  lemma ExternLabelWord(l: Label)
    requires l.kind == ".external" && l.address == 0
    ensures LabelWord(l) == ExternWord
  {
    NumberWordLayout(0, "001");
    ZeroField(12);
  }

  /** The word written for a code or data label is its address in 12 bits and "010". */
  lemma LocalLabelWord(l: Label)
    requires l.kind != ".external"
    ensures LabelWord(l) == Field(12, l.address) + "010"
  {
    NumberWordLayout(l.address, "010");
  }

  /** An operand naming a code or data label fills the first empty word of
      its line with the label's address and "010", and reports nothing. */
  lemma LocalOperandResolved(st: Pass2, labels: seq<Label>, token: string, line: int, k: nat, i: nat)
    requires !CheckOperandStart(token)
    requires FindLabel(labels, token) == Some(k) && labels[k].kind != ".external"
    requires FirstEmpty(st.code, line) == Some(i)
    ensures var r := ResolveToken(st, labels, token, line);
            r.code[i].bits == Field(12, labels[k].address) + "010" && r.externs == st.externs && r.entries == st.entries
  {
    LocalLabelWord(labels[k]);
  }

  /** An operand naming an external label fills the first empty word of its
      line with ExternWord and adds one extern record for the label; when no
      earlier word of the line holds ExternWord, the record carries the
      address of the word just filled. */
  lemma ExternOperandResolved(st: Pass2, labels: seq<Label>, token: string, line: int, k: nat, i: nat)
    requires !CheckOperandStart(token)
    requires FindLabel(labels, token) == Some(k) && labels[k].kind == ".external" && labels[k].address == 0
    requires FirstEmpty(st.code, line) == Some(i)
    requires forall j | 0 <= j < i :: !(st.code[j].line == line && st.code[j].bits == ExternWord)
    ensures var r := ResolveToken(st, labels, token, line);
            r.code[i].bits == ExternWord
            && r.externs == st.externs + [Record(labels[k].name, st.code[i].address)]
            && r.entries == st.entries
  {
    ExternLabelWord(labels[k]);
    var code := Inserted(st.code, ExternWord, line);
    assert code == st.code[i := st.code[i].(bits := ExternWord)];
    assert code[i].line == line && code[i].bits == ExternWord;
    assert forall j | 0 <= j < i :: code[j] == st.code[j];
  }

  /** An operand that names no label changes nothing and is not reported. */
  lemma UndefinedOperandIgnored(st: Pass2, labels: seq<Label>, token: string, line: int)
    requires FindLabel(labels, token).None?
    ensures ResolveToken(st, labels, token, line) == st
  {
  }

  /** A line of three words whose two operand words are still empty. */
  const TwoExternWords: seq<CodeWord> := [CodeWord(100, 1, "000000000010100"), CodeWord(101, 1, []), CodeWord(102, 1, [])]

  /** Two external labels. */
  const ExternPair: seq<Label> := [Label("X", ".external", 0), Label("Y", ".external", 0)]

  /** As written, the operand text "X,Y" of two external labels resolves X
      alone: word 101 gets the extern word and one record "X 101" is written,
      while word 102 stays empty and Y is never reported. */
  lemma SecondLabelOperandUnresolved()
    ensures Resolve(Pass2(TwoExternWords, [], []), ExternPair, "X,Y", 1)
         == Pass2(TwoExternWords[1 := TwoExternWords[1].(bits := ExternWord)], [], [Record("X", 101)])
    ensures Resolve(Pass2(TwoExternWords, [], []), ExternPair, "X,Y", 1).code[2].bits == []
  {
    TokensOfPair();
    assert NamesLabel(ExternPair, "X") by {
      assert !CheckOperandStart("X");
      assert FindLabel(ExternPair, "X") == Some(0);
    }
    assert FirstLabelToken(ExternPair, ["X", "Y"]) == Some(0);
    FirstExternResolved();
  }

  /** strtok splits "X,Y" into "X" and "Y". */
  lemma TokensOfPair()
    ensures Tokens("X,Y", {','}) == ["X", "Y"]
  {
    TokensOfPlain("Y", {','});
    TokensCons("X", ',', "Y", {','});
    assert "X" + [','] + "Y" == "X,Y";
  }

  /** The external operand X fills word 101 and is recorded at 101. */
  lemma FirstExternResolved()
    ensures ResolveToken(Pass2(TwoExternWords, [], []), ExternPair, "X", 1)
         == Pass2(TwoExternWords[1 := TwoExternWords[1].(bits := ExternWord)], [], [Record("X", 101)])
  {
    var code, labels := TwoExternWords, ExternPair;
    assert !CheckOperandStart("X");
    assert FindLabel(labels, "X") == Some(0);
    ExternLabelWord(labels[0]);
    assert FirstEmpty(code, 1) == Some(1);
    var c1 := code[1 := code[1].(bits := ExternWord)];
    assert FindExternWord(c1, 1) == Some(1);
  }
}
