/** The first pass (first_pass.c:17-177): one scan of the macro-free lines
    that fills the label table, the instruction memory from address 100 and
    the data image from address 0, and decides whether the file is valid. */
module FirstPass {
  import opened CString
  import opened Handle
  import opened Scanner
  import opened Encode
  import opened FirstPassHelp

  /** IC_INIT_VALUE (globals.h:12). */
  const ICInit: int := 100

  /** Everything the dispatch loop of implement_first_pass keeps between lines. */
  datatype Pass1 = Pass1(labels: seq<Label>, code: seq<CodeWord>, data: seq<DataWord>, ic: int, dc: int, valid: bool)

  const Start: Pass1 := Pass1([], [], [], ICInit, 0, true)

  /** The pass-1 state held by a memory object and the loop's counters. */
  function State(m: Memory, ic: int, dc: int, valid: bool): Pass1
    reads m
  {
    Pass1(m.labels, m.code, m.data, ic, dc, valid)
  }

  /** The operand text instr_data_detection hands to check_valid_string:
      everything after the first ".string" of the line and the spaces and tabs
      that follow it, up to the newline; the scanned word if there is no
      ".string" in the line. */
  function StringOperand(str: string, word: string): (r: string)
    ensures '\n' !in r || r == word
  {
    match FindSub(str, ".string")
    case None => word
    case Some(j) =>
      var after := str[j + 7..];
      var t := after[Span(after, {' ', '\t'})..];
      t[..CSpan(t, {'\n'})]
  }

  /** The numbers instr_data_detection stores for a directive, or None when
      the directive is neither ".data" nor ".string" (its only failure). */
  function DirectiveValues(str: string, directive: string, rest: string): (r: Option<seq<int>>)
    ensures r.Some? <==> directive == ".data" || directive == ".string"
  {
    if directive == ".data" then Some(DataValues(rest))
    else if directive == ".string" then Some(StringValues(StringOperand(str, rest)))
    else None
  }

  /** The data words of `values` appended at DC, DC moved past them. */
  function Store(st: Pass1, values: seq<int>, line: int): Pass1 {
    st.(data := st.data + DataWords(values, st.dc, line), dc := st.dc + |values|)
  }

  /** The words of an instruction appended at IC, IC moved past them. */
  function Emit(st: Pass1, words: seq<string>, line: int): Pass1 {
    st.(code := st.code + CodeWords(words, st.ic, line), ic := st.ic + |words|)
  }

  /** label_process on the table; a refused label makes the file invalid. */
  function Register(st: Pass1, word: string, address: int, kind: string): Pass1 {
    st.(labels := AddLabel(st.labels, word, address, kind), valid := st.valid && LabelAccepted(st.labels, word))
  }

  /** One iteration of the loop of implement_first_pass (first_pass.c:65-154)
      on the line `str` numbered `line`. */
  function LineStep(st: Pass1, str: string, line: int): Pass1 {
    var first := Word(str, 0);
    if str != [] && str[0] == ';' then st
    else if EndsWithColon(first) then LabelledStep(st, str, first, Word(str, 1), Word(str, 2), line)
    else PlainStep(st, str, first, Word(str, 1), line)
  }

  /** A line whose first word ends with a colon (first_pass.c:74-111). */
  function LabelledStep(st: Pass1, str: string, first: string, second: string, third: string, line: int): Pass1 {
    if IsInstruction(second) then
      if first == ".entry" || first == ".extern" then st
      else match DirectiveValues(str, second, third)
        case Some(values) => Register(Store(st, values, line), first, st.dc, ".data")
        case None => st.(valid := false)
    else if OpcodeDetection(second) then
      match OpcodeWords(second, third)
      case Some(words) => Register(Emit(st, words, line), first, st.ic, ".code")
      case None => st.(valid := false)
    else st
  }

  /** A line without a label (first_pass.c:112-152). */
  function PlainStep(st: Pass1, str: string, first: string, second: string, line: int): Pass1 {
    if IsInstruction(first) then
      if first == ".entry" then st
      else if first == ".extern" then Register(st, second, 0, ".external")
      else match DirectiveValues(str, first, second)
        case Some(values) => Store(st, values, line)
        case None => st.(valid := false)
    else if OpcodeDetection(first) then
      match OpcodeWords(first, second)
      case Some(words) => Emit(st, words, line)
      case None => st.(valid := false)
    else if IsEmptyLine(str) then st
    else st.(valid := false)
  }

  /** The state after the loop has read `lines`, numbered from 1. */
  function Run(lines: seq<string>): Pass1 {
    if lines == [] then Start
    else LineStep(Run(lines[..|lines| - 1]), lines[|lines| - 1], |lines|)
  }

  lemma RunSnoc(lines: seq<string>, i: nat)
    requires i < |lines|
    ensures Run(lines[..i + 1]) == LineStep(Run(lines[..i]), lines[i], i + 1)
  {
    assert lines[..i + 1][..i] == lines[..i];
  }

  /** The state at the end of the first pass: the loop, then update_data_label
      with the final IC (first_pass.c:155). */
  function FirstPassResult(lines: seq<string>): Pass1 {
    var st := Run(lines);
    st.(labels := ShiftDataLabels(st.labels, st.ic))
  }

  /** instruction_data_process (first_pass_help.c:101-107) and
      instr_data_detection (scanner.c:62-88). */
  method InstructionDataProcess(m: Memory, str: string, directive: string, rest: string, dc: int, line: int)
    returns (ok: bool, dc': int)
    modifies m
    ensures ok == DirectiveValues(str, directive, rest).Some?
    ensures var st' := State(m, 0, dc', true);
            var st := old(State(m, 0, dc, true));
            st' == if ok then Store(st, DirectiveValues(str, directive, rest).value, line) else st
  {
    if directive == ".data" {
      dc' := m.CheckValidData(rest, dc, line);
      return true, dc';
    } else if directive == ".string" {
      dc' := m.CheckValidString(StringOperand(str, rest), dc, line);
      return true, dc';
    }
    return false, dc;
  }

  /** The body of the loop of implement_first_pass for one line. */
  method ProcessLine(m: Memory, str: string, line: int, ic: int, dc: int, valid: bool)
    returns (ic': int, dc': int, valid': bool)
    modifies m
    ensures State(m, ic', dc', valid') == LineStep(old(State(m, ic, dc, valid)), str, line)
  {
    var first := Word(str, 0);
    if str != [] && str[0] == ';' {
      return ic, dc, valid;
    }
    if EndsWithColon(first) {
      ic', dc', valid' := ProcessLabelled(m, str, first, Word(str, 1), Word(str, 2), line, ic, dc, valid);
    } else {
      ic', dc', valid' := ProcessPlain(m, str, first, Word(str, 1), line, ic, dc, valid);
    }
  }

  /** The labelled branch of the loop body. */
  method ProcessLabelled(m: Memory, str: string, first: string, second: string, third: string, line: int, ic: int, dc: int, valid: bool)
    returns (ic': int, dc': int, valid': bool)
    modifies m
    ensures State(m, ic', dc', valid') == LabelledStep(old(State(m, ic, dc, valid)), str, first, second, third, line)
  {
    ic', dc', valid' := ic, dc, valid;
    if IsInstruction(second) {
      if first == ".entry" || first == ".extern" {
        return;
      }
      ic', dc', valid' := ProcessLabelledDirective(m, str, first, second, third, line, ic, dc, valid);
    } else if OpcodeDetection(second) {
      ic', dc', valid' := ProcessLabelledInstruction(m, first, second, third, line, ic, dc, valid);
    }
  }

  /** A directive line under a label: the values stored, then the label
      registered at the old DC. */
  method ProcessLabelledDirective(m: Memory, str: string, first: string, second: string, third: string, line: int, ic: int, dc: int, valid: bool)
    returns (ic': int, dc': int, valid': bool)
    modifies m
    ensures var st := old(State(m, ic, dc, valid));
            State(m, ic', dc', valid') ==
              match DirectiveValues(str, second, third)
              case Some(values) => Register(Store(st, values, line), first, dc, ".data")
              case None => st.(valid := false)
  {
    ghost var st := State(m, ic, dc, valid);
    var ok;
    ok, dc' := InstructionDataProcess(m, str, second, third, dc, line);
    ic' := ic;
    if ok {
      ghost var mid := State(m, ic, dc', valid);
      assert mid == Store(st, DirectiveValues(str, second, third).value, line);
      var added := m.LabelProcess(first, dc, ".data");
      valid' := valid && added;
      assert State(m, ic', dc', valid') == Register(mid, first, dc, ".data");
    } else {
      valid' := false;
    }
  }

  /** An instruction line under a label: the words emitted, then the label
      registered at the old IC. */
  method ProcessLabelledInstruction(m: Memory, first: string, second: string, third: string, line: int, ic: int, dc: int, valid: bool)
    returns (ic': int, dc': int, valid': bool)
    modifies m
    ensures var st := old(State(m, ic, dc, valid));
            State(m, ic', dc', valid') ==
              match OpcodeWords(second, third)
              case Some(words) => Register(Emit(st, words, line), first, ic, ".code")
              case None => st.(valid := false)
  {
    ghost var st := State(m, ic, dc, valid);
    var ok;
    ok, ic' := m.OpcodeProcess(second, third, ic, line);
    dc' := dc;
    if ok {
      ghost var mid := State(m, ic', dc, valid);
      assert mid == Emit(st, OpcodeWords(second, third).value, line);
      var added := m.LabelProcess(first, ic, ".code");
      valid' := valid && added;
      assert State(m, ic', dc', valid') == Register(mid, first, ic, ".code");
    } else {
      valid' := false;
    }
  }

  /** The unlabelled branch of the loop body. */
  method ProcessPlain(m: Memory, str: string, first: string, second: string, line: int, ic: int, dc: int, valid: bool)
    returns (ic': int, dc': int, valid': bool)
    modifies m
    ensures State(m, ic', dc', valid') == PlainStep(old(State(m, ic, dc, valid)), str, first, second, line)
  {
    ic', dc', valid' := ic, dc, valid;
    if IsInstruction(first) {
      if first == ".entry" {
        return;
      } else if first == ".extern" {
        var added := m.LabelProcess(second, 0, ".external");
        valid' := valid' && added;
      } else {
        dc', valid' := ProcessPlainDirective(m, str, first, second, line, dc, valid);
      }
    } else if OpcodeDetection(first) {
      ic', valid' := ProcessPlainInstruction(m, first, second, line, ic, valid);
    } else if !IsEmptyLine(str) {
      valid' := false;
    }
  }

  /** A directive line without a label: the values stored at DC. */
  method ProcessPlainDirective(m: Memory, str: string, first: string, second: string, line: int, dc: int, valid: bool)
    returns (dc': int, valid': bool)
    modifies m
    ensures var st := old(State(m, 0, dc, valid));
            State(m, 0, dc', valid') ==
              match DirectiveValues(str, first, second)
              case Some(values) => Store(st, values, line)
              case None => st.(valid := false)
  {
    var ok;
    ok, dc' := InstructionDataProcess(m, str, first, second, dc, line);
    valid' := valid && ok;
  }

  /** An instruction line without a label: its words emitted at IC. */
  method ProcessPlainInstruction(m: Memory, first: string, second: string, line: int, ic: int, valid: bool)
    returns (ic': int, valid': bool)
    modifies m
    ensures var st := old(State(m, ic, 0, valid));
            State(m, ic', 0, valid') ==
              match OpcodeWords(first, second)
              case Some(words) => Emit(st, words, line)
              case None => st.(valid := false)
  {
    var ok;
    ok, ic' := m.OpcodeProcess(first, second, ic, line);
    valid' := valid && ok;
  }

  /** implement_first_pass up to the validity test (first_pass.c:17-161),
      with the lines of the file as input. */
  method ImplementFirstPass(lines: seq<string>) returns (m: Memory, ic: int, dc: int, valid: bool)
    ensures fresh(m)
    ensures State(m, ic, dc, valid) == FirstPassResult(lines)
  {
    m := new Memory();
    ic, dc, valid := ICInit, 0, true;
    var i := 0;
    while i < |lines|
      invariant i <= |lines|
      invariant State(m, ic, dc, valid) == Run(lines[..i])
    {
      RunSnoc(lines, i);
      ic, dc, valid := ProcessLine(m, lines[i], i + 1, ic, dc, valid);
      i := i + 1;
    }
    assert lines[..i] == lines;
    m.UpdateDataLabel(ic);
  }

  // ---------------------------------------------------------------------
  // What the first pass guarantees

  /** Every label points into its own segment: code labels into
      [100, IC], data labels into [0, DC], external labels at 0. */
  predicate LabelsInSegments(st: Pass1) {
    forall k | 0 <= k < |st.labels| ::
      (st.labels[k].kind == ".code" ==> ICInit <= st.labels[k].address <= st.ic)
      && (st.labels[k].kind == ".data" ==> 0 <= st.labels[k].address <= st.dc)
      && (st.labels[k].kind == ".external" ==> st.labels[k].address == 0)
  }

  /** The layout the loop keeps: IC is 100 plus the number of code words and
      DC the number of data words, both lists at consecutive addresses, and
      every label of one of the three kinds inside its segment. */
  predicate LaidOut(st: Pass1) {
    && st.ic == ICInit + |st.code|
    && st.dc == |st.data|
    && (forall k | 0 <= k < |st.code| :: st.code[k].address == ICInit + k)
    && (forall k | 0 <= k < |st.data| :: st.data[k].address == k)
    && (forall k | 0 <= k < |st.labels| :: st.labels[k].kind in {".code", ".data", ".external"})
    && LabelsInSegments(st)
  }

  lemma StoreKeepsLayout(st: Pass1, values: seq<int>, line: int)
    requires LaidOut(st)
    ensures LaidOut(Store(st, values, line))
  {
  }

  lemma EmitKeepsLayout(st: Pass1, words: seq<string>, line: int)
    requires LaidOut(st)
    ensures LaidOut(Emit(st, words, line))
  {
  }

  lemma RegisterKeepsLayout(st: Pass1, word: string, address: int, kind: string)
    requires LaidOut(st)
    requires kind == ".code" ==> ICInit <= address <= st.ic
    requires kind == ".data" ==> 0 <= address <= st.dc
    requires kind == ".external" ==> address == 0
    requires kind in {".code", ".data", ".external"}
    ensures LaidOut(Register(st, word, address, kind))
  {
    var r := Register(st, word, address, kind);
    assert forall k | 0 <= k < |st.labels| :: r.labels[k] == st.labels[k];
  }

  /** Each line keeps the layout. */
  lemma StepKeepsLayout(st: Pass1, str: string, line: int)
    requires LaidOut(st)
    ensures LaidOut(LineStep(st, str, line))
  {
    var first := Word(str, 0);
    if str != [] && str[0] == ';' {
    } else if EndsWithColon(first) {
      LabelledKeepsLayout(st, str, first, Word(str, 1), Word(str, 2), line);
    } else {
      PlainKeepsLayout(st, str, first, Word(str, 1), line);
    }
  }

  lemma LabelledKeepsLayout(st: Pass1, str: string, first: string, second: string, third: string, line: int)
    requires LaidOut(st)
    ensures LaidOut(LabelledStep(st, str, first, second, third, line))
  {
    if IsInstruction(second) {
      match DirectiveValues(str, second, third)
      case Some(values) =>
        StoreKeepsLayout(st, values, line);
        RegisterKeepsLayout(Store(st, values, line), first, st.dc, ".data");
      case None =>
    } else if OpcodeDetection(second) {
      match OpcodeWords(second, third)
      case Some(words) =>
        EmitKeepsLayout(st, words, line);
        RegisterKeepsLayout(Emit(st, words, line), first, st.ic, ".code");
      case None =>
    }
  }

  lemma PlainKeepsLayout(st: Pass1, str: string, first: string, second: string, line: int)
    requires LaidOut(st)
    ensures LaidOut(PlainStep(st, str, first, second, line))
  {
    if IsInstruction(first) {
      if first == ".extern" {
        RegisterKeepsLayout(st, second, 0, ".external");
      } else if first != ".entry" {
        match DirectiveValues(str, first, second)
        case Some(values) => StoreKeepsLayout(st, values, line);
        case None =>
      }
    } else if OpcodeDetection(first) {
      match OpcodeWords(first, second)
      case Some(words) => EmitKeepsLayout(st, words, line);
      case None =>
    }
  }

  /** Whatever the lines, the loop ends laid out. */
  lemma {:induction false} RunLaidOut(lines: seq<string>)
    ensures LaidOut(Run(lines))
  {
    if lines != [] {
      RunLaidOut(lines[..|lines| - 1]);
      StepKeepsLayout(Run(lines[..|lines| - 1]), lines[|lines| - 1], |lines|);
    }
  }

  /** After update_data_label every data label lies in the data image placed
      after the code, i.e. in [IC, IC + DC]. */
  lemma FinalDataLabels(lines: seq<string>)
    ensures var r := FirstPassResult(lines);
            forall k | 0 <= k < |r.labels| && r.labels[k].kind == ".data" ::
              r.ic <= r.labels[k].address <= r.ic + r.dc
  {
    RunLaidOut(lines);
  }

  /** The table never holds a name twice. */
  lemma StepKeepsNamesDistinct(st: Pass1, str: string, line: int)
    requires NamesDistinct(st.labels)
    ensures NamesDistinct(LineStep(st, str, line).labels)
  {
    var first := Word(str, 0);
    if str != [] && str[0] == ';' {
    } else if EndsWithColon(first) {
      LabelledKeepsNames(st, str, first, Word(str, 1), Word(str, 2), line);
    } else {
      PlainKeepsNames(st, str, first, Word(str, 1), line);
    }
  }

  lemma LabelledKeepsNames(st: Pass1, str: string, first: string, second: string, third: string, line: int)
    requires NamesDistinct(st.labels)
    ensures NamesDistinct(LabelledStep(st, str, first, second, third, line).labels)
  {
    if IsInstruction(second) && first != ".entry" && first != ".extern" {
      match DirectiveValues(str, second, third)
      case Some(values) =>
        assert Store(st, values, line).labels == st.labels;
        AddLabelKeepsNamesDistinct(st.labels, first, st.dc, ".data");
      case None =>
    } else if !IsInstruction(second) && OpcodeDetection(second) {
      match OpcodeWords(second, third)
      case Some(words) =>
        assert Emit(st, words, line).labels == st.labels;
        AddLabelKeepsNamesDistinct(st.labels, first, st.ic, ".code");
      case None =>
    }
  }

  lemma PlainKeepsNames(st: Pass1, str: string, first: string, second: string, line: int)
    requires NamesDistinct(st.labels)
    ensures NamesDistinct(PlainStep(st, str, first, second, line).labels)
  {
    if IsInstruction(first) && first == ".extern" {
      AddLabelKeepsNamesDistinct(st.labels, second, 0, ".external");
    }
  }

  lemma {:induction false} RunNamesDistinct(lines: seq<string>)
    ensures NamesDistinct(Run(lines).labels)
  {
    if lines != [] {
      RunNamesDistinct(lines[..|lines| - 1]);
      StepKeepsNamesDistinct(Run(lines[..|lines| - 1]), lines[|lines| - 1], |lines|);
    }
  }

  /** `r` extends `st`: the three lists only grew at their tails, and the
      file is valid only if it was. */
  predicate Grows(st: Pass1, r: Pass1) {
    && |st.code| <= |r.code| && r.code[..|st.code|] == st.code
    && |st.data| <= |r.data| && r.data[..|st.data|] == st.data
    && |st.labels| <= |r.labels| && r.labels[..|st.labels|] == st.labels
    && (r.valid ==> st.valid)
  }

  /** The three lists only grow at their tails, and a file once invalid stays
      invalid. */
  lemma StepExtends(st: Pass1, str: string, line: int)
    ensures Grows(st, LineStep(st, str, line))
  {
    var first := Word(str, 0);
    if str != [] && str[0] == ';' {
    } else if EndsWithColon(first) {
      LabelledGrows(st, str, first, Word(str, 1), Word(str, 2), line);
    } else {
      PlainGrows(st, str, first, Word(str, 1), line);
    }
  }

  lemma LabelledGrows(st: Pass1, str: string, first: string, second: string, third: string, line: int)
    ensures Grows(st, LabelledStep(st, str, first, second, third, line))
  {
    if IsInstruction(second) && first != ".entry" && first != ".extern" {
      match DirectiveValues(str, second, third)
      case Some(values) =>
        StoreGrows(st, values, line);
        RegisterGrows(Store(st, values, line), first, st.dc, ".data");
      case None =>
    } else if !IsInstruction(second) && OpcodeDetection(second) {
      match OpcodeWords(second, third)
      case Some(words) =>
        EmitGrows(st, words, line);
        RegisterGrows(Emit(st, words, line), first, st.ic, ".code");
      case None =>
    }
  }

  lemma PlainGrows(st: Pass1, str: string, first: string, second: string, line: int)
    ensures Grows(st, PlainStep(st, str, first, second, line))
  {
    if IsInstruction(first) {
      if first == ".extern" {
        RegisterGrows(st, second, 0, ".external");
      } else if first != ".entry" {
        match DirectiveValues(str, first, second)
        case Some(values) => StoreGrows(st, values, line);
        case None =>
      }
    } else if OpcodeDetection(first) {
      match OpcodeWords(first, second)
      case Some(words) => EmitGrows(st, words, line);
      case None =>
    }
  }

  lemma StoreGrows(st: Pass1, values: seq<int>, line: int)
    ensures Grows(st, Store(st, values, line))
  {
    var r := Store(st, values, line);
    assert r.data[..|st.data|] == st.data;
  }

  lemma EmitGrows(st: Pass1, words: seq<string>, line: int)
    ensures Grows(st, Emit(st, words, line))
  {
    var r := Emit(st, words, line);
    assert r.code[..|st.code|] == st.code;
  }

  /** label_process only appends to the table. */
  lemma RegisterGrows(mid: Pass1, word: string, address: int, kind: string)
    ensures Grows(mid, Register(mid, word, address, kind))
  {
    var r := Register(mid, word, address, kind);
    assert r.labels[..|mid.labels|] == mid.labels;
  }

  /** An error on any line makes the whole file invalid: the loop never
      clears the flag once it is down. */
  lemma {:induction false} InvalidStays(lines: seq<string>, i: nat)
    requires i <= |lines| && !Run(lines[..i]).valid
    ensures !Run(lines).valid
  {
    if i < |lines| {
      var init := lines[..|lines| - 1];
      assert init[..i] == lines[..i];
      InvalidStays(init, i);
      StepExtends(Run(init), lines[|lines| - 1], |lines|);
    } else {
      assert lines[..i] == lines;
    }
  }

  /** Comment lines, blank lines and ".entry" lines change nothing in pass 1. */
  lemma SkippedLines(st: Pass1, str: string, line: int)
    requires (str != [] && str[0] == ';') || IsEmptyLine(str) || Word(str, 0) == ".entry"
    ensures LineStep(st, str, line) == st
  {
    if str != [] && str[0] == ';' {
    } else if IsEmptyLine(str) {
      TokensOfBlank(str);
      assert Word(str, 0) == [];
      assert !OpcodeDetection([]) by { OpcodeNotEmpty(); }
    } else {
      assert !EndsWithColon(Word(str, 0));
      assert IsInstruction(Word(str, 0));
    }
  }

  lemma OpcodeNotEmpty()
    ensures !OpcodeDetection([])
  {
    if OpcodeDetection([]) {
      OpcodeNamesListed([]);
    }
  }

  lemma TokensOfBlank(s: string)
    requires forall c | c in s :: IsSpace(c)
    ensures Tokens(s, Whitespace) == []
  {
    forall c | c in s ensures c in Whitespace {
      WhitespaceIsSpace(c);
    }
  }

  /** A line whose first word is neither a label, a directive nor an opcode
      and which is not blank or a comment makes the file invalid. */
  lemma UnrecognisedLineInvalidates(st: Pass1, str: string, line: int)
    requires !(str != [] && str[0] == ';') && !IsEmptyLine(str)
    requires var first := Word(str, 0);
             !EndsWithColon(first) && !IsInstruction(first) && !OpcodeDetection(first)
    ensures !LineStep(st, str, line).valid
  {
  }

  /** A labelled line whose second word is neither a directive nor an opcode
      is ignored without an error. */
  lemma LabelledOtherIgnored(st: Pass1, str: string, line: int)
    requires !(str != [] && str[0] == ';')
    requires EndsWithColon(Word(str, 0)) && !IsInstruction(Word(str, 1)) && !OpcodeDetection(Word(str, 1))
    ensures LineStep(st, str, line) == st
  {
  }

  /** A labelled ".data" or ".string" line stores its values from the old DC,
      then registers the label as ".data" at that old DC. */
  lemma LabelledData(st: Pass1, str: string, line: int)
    requires !(str != [] && str[0] == ';')
    requires EndsWithColon(Word(str, 0)) && Word(str, 1) in {".data", ".string"}
    ensures var values := DirectiveValues(str, Word(str, 1), Word(str, 2)).value;
            var r := LineStep(st, str, line);
            && r.data == st.data + DataWords(values, st.dc, line)
            && r.dc == st.dc + |values|
            && r.labels == AddLabel(st.labels, Word(str, 0), st.dc, ".data")
            && r.valid == (st.valid && LabelAccepted(st.labels, Word(str, 0)))
            && r.code == st.code && r.ic == st.ic
  {
    assert IsInstruction(Word(str, 1));
  }

  /** A labelled instruction emits its words from the old IC, then registers
      the label as ".code" at that old IC; an instruction that is refused
      registers no label and makes the file invalid. */
  lemma LabelledInstruction(st: Pass1, str: string, line: int)
    requires !(str != [] && str[0] == ';')
    requires EndsWithColon(Word(str, 0)) && OpcodeDetection(Word(str, 1))
    ensures var r := LineStep(st, str, line);
            match OpcodeWords(Word(str, 1), Word(str, 2))
            case Some(words) =>
              && r.code == st.code + CodeWords(words, st.ic, line)
              && r.ic == st.ic + |words|
              && r.labels == AddLabel(st.labels, Word(str, 0), st.ic, ".code")
              && r.valid == (st.valid && LabelAccepted(st.labels, Word(str, 0)))
            case None => r == st.(valid := false)
  {
    OpcodeNotDirective(Word(str, 1));
  }

  /** No opcode name starts with '.'. */
  lemma OpcodeNotDirective(s: string)
    requires OpcodeDetection(s)
    ensures !IsInstruction(s)
  {
    OpcodeNamesListed(s);
  }

  /** ".extern NAME" registers NAME as ".external" at address 0; a name
      already in the table (declared twice, or also a local label) makes the
      file invalid. */
  lemma ExternRegistered(st: Pass1, str: string, line: int)
    requires !(str != [] && str[0] == ';') && Word(str, 0) == ".extern"
    ensures var r := LineStep(st, str, line);
            && r.labels == AddLabel(st.labels, Word(str, 1), 0, ".external")
            && (FindLabel(st.labels, StripColon(Word(str, 1))).Some? ==> !r.valid)
            && r.code == st.code && r.data == st.data
  {
  }

  /** As written, a label in front of ".extern" or ".entry" makes the file
      invalid: the skip test looks at the label instead of the directive, so
      the directive reaches instr_data_detection, which refuses it. */
  lemma LabelBeforeExternInvalidates(st: Pass1, str: string, line: int)
    requires !(str != [] && str[0] == ';')
    requires EndsWithColon(Word(str, 0)) && Word(str, 1) in {".extern", ".entry"}
    ensures !LineStep(st, str, line).valid && LineStep(st, str, line).labels == st.labels
  {
    assert IsInstruction(Word(str, 1));
  }

  /** As written, a malformed ".data" operand list does not make the file
      invalid: it only stores fewer words (none at all for a bad comma layout). */
  lemma DataErrorsKeepValid(st: Pass1, str: string, line: int)
    requires !(str != [] && str[0] == ';') && Word(str, 0) == ".data"
    ensures var r := LineStep(st, str, line);
            r.valid == st.valid && r.data == st.data + DataWords(DataValues(Word(str, 1)), st.dc, line)
  {
  }
}
