/** The per-file stages of the macro pre-assembler (pre_assembler_help.c,
    pre_assembler.c): the normalisation of every line, the collection of
    macro definitions, and the order in which the stages are chained. */
module PreAssembler {
  import opened CString
  import opened Scanner
  import opened Appendix
  import opened Macros

  /** MAX_LINE_LENGTH (globals.h:10). */
  const MaxLineLength: nat := 81

  /** BIG_NUMBER_CONST (globals.h:14): the buffer size of the first read. */
  const BigNumber: nat := 1000

  // ---------------------------------------------------------------------
  // remove_extra_spaces_file

  /** The line remove_extra_spaces_file writes for a line it accepts: a
      comment line becomes an empty line, any other line is normalised. */
  function NormalLine(l: string): string {
    if l != [] && l[0] == ';' then "\n" else ExtraSpacesRemoved(l)
  }

  /** What remove_extra_spaces_file (pre_assembler_help.c:36-53) writes: NULL
      when some line is longer than MAX_LINE_LENGTH, otherwise one line per
      input line. */
  function ExtraSpacesFile(lines: seq<string>): Option<seq<string>> {
    if exists k | 0 <= k < |lines| :: |lines[k]| > MaxLineLength then None
    else Some(seq(|lines|, k requires 0 <= k < |lines| => NormalLine(lines[k])))
  }

  /** The loop of remove_extra_spaces_file (pre_assembler_help.c:36-53). */
  method RemoveExtraSpacesFile(lines: seq<string>) returns (r: Option<seq<string>>)
    ensures r == ExtraSpacesFile(lines)
  {
    var out: seq<string> := [];
    var i := 0;
    while i < |lines|
      invariant i <= |lines| && |out| == i
      invariant forall k | 0 <= k < i :: |lines[k]| <= MaxLineLength && out[k] == NormalLine(lines[k])
    {
      var str := lines[i];
      if |str| > MaxLineLength {
        assert |lines[i]| > MaxLineLength;
        return None;
      } else if str != [] && str[0] == ';' {
        str := "\n";
      } else {
        str := RemoveExtraSpacesStr(str);
      }
      out := out + [str];
      i := i + 1;
    }
    assert out == seq(|lines|, k requires 0 <= k < |lines| => NormalLine(lines[k]));
    r := Some(out);
  }

  /** The stage fails exactly on an over-long line; otherwise it keeps the
      number of lines, empties comment lines, and changes no other line
      beyond its blanks: the text without blanks is kept. */
  lemma ExtraSpacesFileSpec(lines: seq<string>)
    ensures ExtraSpacesFile(lines).None? <==> exists k | 0 <= k < |lines| :: |lines[k]| > MaxLineLength
    ensures ExtraSpacesFile(lines).Some? ==>
      var out := ExtraSpacesFile(lines).value;
      && |out| == |lines|
      && (forall k | 0 <= k < |lines| :: lines[k] != [] && lines[k][0] == ';' ==> out[k] == "\n")
      && (forall k | 0 <= k < |lines| :: !(lines[k] != [] && lines[k][0] == ';') ==>
            Visible(out[k]) == Visible(lines[k]))
  {
    if ExtraSpacesFile(lines).Some? {
      var out := ExtraSpacesFile(lines).value;
      forall k | 0 <= k < |lines| && !(lines[k] != [] && lines[k][0] == ';')
        ensures Visible(out[k]) == Visible(lines[k])
      {
        ExtraSpacesVisible(lines[k]);
      }
    }
  }

  // ---------------------------------------------------------------------
  // add_macro

  /** The local state of add_macro (pre_assembler_help.c:60-71) together
      with the list behind `head`. `tempName` keeps its value between lines,
      as the C array does. */
  datatype Capture = Capture(
    macros: seq<Macro>, valid: bool, isMacro: bool, name: string,
    content: string, mcroLine: int, lineNumber: int, tempName: string)

  /** The state add_macro starts from, given the list it finds in `head`. */
  function Start(head: seq<Macro>): (st: Capture)
    ensures st.macros == head && st.valid && !st.isMacro && st.content == [] && st.lineNumber == 0
  {
    Capture(head, true, false, [], [], 0, 0, [])
  }

  /** sscanf(s, "%s %[^\n]", name, rest): the second target, the text after
      one word and the blanks after it, up to the newline. */
  function HeaderRest(s: string): (r: string)
    ensures '\n' !in r
    ensures r == [] || !IsSpace(r[0])
  {
    var t := AfterWord(s);
    var u := t[Span(t, Whitespace)..];
    u[..CSpan(u, {'\n'})]
  }

  /** A line that opens a definition: it starts with "macr ". */
  predicate IsHeader(line: string) {
    "macr " <= line
  }

  /** A line that closes a definition: it starts with "endmacr". */
  predicate IsFooter(line: string) {
    "endmacr" <= line
  }

  /** The name on a header line: the first word after "macr ", or the name
      of the previous header when there is none. */
  function HeaderName(st: Capture, line: string): string
    requires IsHeader(line)
  {
    if Words(line[5..]) != [] then Words(line[5..])[0] else st.tempName
  }

  /** One iteration of the loop of add_macro (pre_assembler_help.c:79-131). */
  function Step(st: Capture, line: string): Capture {
    var st := st.(lineNumber := st.lineNumber + 1);
    if IsHeader(line) then
      var tname := HeaderName(st, line);
      var st := st.(mcroLine := st.lineNumber, tempName := tname);
      if SearchList(st.macros, tname, line).found then st.(valid := false)
      else if IsValidMacroName(tname) then
        st.(valid := st.valid && IsRestOfLineValid(HeaderRest(line[5..])),
            isMacro := true, content := [], name := tname)
      else st.(valid := false)
    else if st.isMacro && IsFooter(line) then
      st.(valid := st.valid && IsRestOfLineValid(Word(line[7..], 0)),
          macros := WithMacro(st.macros, Macro(st.name, st.content, st.mcroLine), None),
          isMacro := false)
    else if st.isMacro then st.(content := st.content + line)
    else st
  }

  /** The state after the loop has read `lines`. */
  function Run(st: Capture, lines: seq<string>): Capture
    decreases |lines|
  {
    if lines == [] then st else Step(Run(st, lines[..|lines| - 1]), lines[|lines| - 1])
  }

  lemma RunSnoc(init: Capture, lines: seq<string>, i: nat)
    requires i < |lines|
    ensures Run(init, lines[..i + 1]) == Step(Run(init, lines[..i]), lines[i])
  {
    assert lines[..i + 1][..i] == lines[..i];
  }

  /** The header branch of add_macro (pre_assembler_help.c:83-113): the
      name read from the line (or the previous one), the new error flag,
      and whether a capture starts. */
  method ReadHeader(macros: seq<Macro>, line: string, tempName: string, valid: bool)
    returns (tname: string, valid': bool, start: bool)
    requires IsHeader(line)
    ensures tname == (if Words(line[5..]) != [] then Words(line[5..])[0] else tempName)
    ensures start <==> !SearchList(macros, tname, line).found && IsValidMacroName(tname)
    ensures valid' == (start && valid && IsRestOfLineValid(HeaderRest(line[5..])))
  {
    tname := tempName;
    var words := Words(line[5..]);
    if words != [] {
      tname := words[0];
    }
    var rest := HeaderRest(line[5..]);
    var found := SearchList(macros, tname, line).found;
    valid', start := valid, false;
    if found {
      valid' := false;
    } else if IsValidMacroName(tname) {
      if !IsRestOfLineValid(rest) {
        valid' := false;
      }
      start := true;
    } else {
      valid' := false;
    }
  }

  /** One iteration of the loop of add_macro (pre_assembler_help.c:79-131):
      a header line starts a capture, the closing line of a capture adds the
      macro to the list, any other line inside a capture is appended to its
      content. */
  method ReadMacroLine(head: MacroList, line: string, isvalid0: bool, isMacro0: bool, name0: string, content0: string,
                       mcroLine0: int, lineNumber0: int, tempName0: string)
    returns (isvalid: bool, isMacro: bool, name: string, content: string, mcroLine: int, lineNumber: int, tempName: string)
    modifies head
    ensures Capture(head.macros, isvalid, isMacro, name, content, mcroLine, lineNumber, tempName)
         == Step(Capture(old(head.macros), isvalid0, isMacro0, name0, content0, mcroLine0, lineNumber0, tempName0), line)
  {
    isvalid, isMacro, name, content, mcroLine, lineNumber, tempName :=
      isvalid0, isMacro0, name0, content0, mcroLine0, lineNumber0 + 1, tempName0;
    if |line| >= 5 && line[..5] == "macr " {
      assert IsHeader(line);
      mcroLine := lineNumber;
      var start;
      tempName, isvalid, start := ReadHeader(head.macros, line, tempName, isvalid);
      if start {
        isMacro := true;
        content := [];
        name := tempName;
      }
    } else if isMacro && |line| >= 7 && line[..7] == "endmacr" {
      assert !IsHeader(line) && IsFooter(line);
      var rest := Word(line[7..], 0);
      if !IsRestOfLineValid(rest) {
        isvalid := false;
      }
      head.AddMacroToList(name, content, mcroLine, None);
      isMacro := false;
    } else {
      assert !IsHeader(line) && !(isMacro && IsFooter(line));
      if isMacro {
        content := content + line;
      }
    }
  }

  /** add_macro (pre_assembler_help.c:60-142): collects the definitions of
      `lines` into `head` and reports whether no error was found. */
  method AddMacro(lines: seq<string>, head: MacroList) returns (ok: bool)
    modifies head
    ensures head.macros == Run(Start(old(head.macros)), lines).macros
    ensures ok == Run(Start(old(head.macros)), lines).valid
  {
    ghost var init := Start(head.macros);
    var isvalid, isMacro := true, false;
    var name, content, tempName: string := [], [], [];
    var mcroLine, lineNumber := 0, 0;
    var i := 0;
    while i < |lines|
      invariant i <= |lines|
      invariant Run(init, lines[..i]) ==
        Capture(head.macros, isvalid, isMacro, name, content, mcroLine, lineNumber, tempName)
    {
      RunSnoc(init, lines, i);
      isvalid, isMacro, name, content, mcroLine, lineNumber, tempName :=
        ReadMacroLine(head, lines[i], isvalid, isMacro, name, content, mcroLine, lineNumber, tempName);
      i := i + 1;
    }
    assert lines[..i] == lines;
    ok := isvalid;
  }

  /** A line outside a definition that does not open one changes nothing
      but the line count. */
  lemma OutsideUnchanged(st: Capture, line: string)
    requires !st.isMacro && !IsHeader(line)
    ensures Step(st, line) == st.(lineNumber := st.lineNumber + 1)
  {
  }

  /** A header whose name is already in the list, or is a directive, an
      opcode or a register name, is an error and starts no capture. */
  lemma RejectedHeader(st: Capture, line: string)
    requires IsHeader(line)
    requires var n := HeaderName(st, line);
             (exists j | 0 <= j < |st.macros| :: st.macros[j].name == n) || !IsValidMacroName(n)
    ensures var r := Step(st, line);
            !r.valid && r.isMacro == st.isMacro && r.content == st.content &&
            r.name == st.name && r.macros == st.macros
  {
    assert FindSub(line, "macr") == Some(0) by {
      assert OccursAt(line, "macr", 0);
    }
  }

  /** A header with a fresh legal name starts a capture with an empty body,
      even when text follows the name, which is only recorded as an error. */
  lemma AcceptedHeader(st: Capture, line: string)
    requires IsHeader(line)
    requires var n := HeaderName(st, line);
             (forall j | 0 <= j < |st.macros| :: st.macros[j].name != n) && IsValidMacroName(n)
    ensures var r := Step(st, line);
            && r.isMacro && r.content == [] && r.name == HeaderName(st, line)
            && r.mcroLine == st.lineNumber + 1 && r.macros == st.macros
            && (r.valid <==> st.valid && HeaderRest(line[5..]) == [])
  {
    var rest := HeaderRest(line[5..]);
    if rest != [] {
      assert rest[0] in rest;
    }
  }

  /** Inside a definition every line other than a header or a footer is
      appended to the body as it is. */
  lemma CaptureAppends(st: Capture, line: string)
    requires st.isMacro && !IsHeader(line) && !IsFooter(line)
    ensures Step(st, line) == st.(lineNumber := st.lineNumber + 1, content := st.content + line)
  {
  }

  /** A footer stores the captured macro as the whole list: the list keeps
      only the last definition, whatever it held before. Any word after
      "endmacr" is an error. */
  lemma FooterReplacesList(st: Capture, line: string)
    requires st.isMacro && !IsHeader(line) && IsFooter(line)
    ensures var r := Step(st, line);
            && r.macros == [Macro(st.name, st.content, st.mcroLine)]
            && !r.isMacro
            && (r.valid <==> st.valid && Word(line[7..], 0) == [])
  {
    var w := Word(line[7..], 0);
    if w != [] {
      assert w in Words(line[7..]);
      assert w[0] in w;
    }
  }

  /** An error is never undone, and the list after the loop is the list the
      loop started from or a single macro. */
  lemma {:induction false} RunInvariants(st: Capture, lines: seq<string>)
    ensures Run(st, lines).valid ==> st.valid
    ensures Run(st, lines).macros == st.macros || |Run(st, lines).macros| == 1
    decreases |lines|
  {
    if lines != [] {
      RunInvariants(st, lines[..|lines| - 1]);
    }
  }

  /** Two definitions in a row: the second name is checked against the first
      only, so a name defined earlier can be defined again. */
  lemma RedefinitionAfterAnother(st: Capture, line: string, other: Macro)
    requires IsHeader(line) && st.macros == [other]
    requires other.name != HeaderName(st, line) && IsValidMacroName(HeaderName(st, line))
    ensures Step(st, line).isMacro
  {
  }

  // ---------------------------------------------------------------------
  // implement_macro

  /** What replace_all_mcros writes for `lines`. */
  function Expanded(lines: seq<string>, macros: seq<Macro>): (r: seq<string>)
    ensures |r| == |lines| && forall k | 0 <= k < |lines| :: r[k] == ReplacedLine(lines[k], macros)
  {
    seq(|lines|, k requires 0 <= k < |lines| => ReplacedLine(lines[k], macros))
  }

  /** The result of implement_macro (pre_assembler.c:7-56) for a source file
      `text` and the list `head` holds on entry: the lines of the expanded
      file, or None when a stage fails or, for an unclosed definition, never
      ends. Each stage reads back the file the previous one wrote. */
  function ImplementMacro(text: string, head: seq<Macro>): (r: Option<seq<string>>)
    ensures ExtraSpacesFile(ReadLines(text, BigNumber)).None? ==> r.None?
    ensures r.Some? ==>
              var lines2 := ReadLines(Concat(ExtraSpacesFile(ReadLines(text, BigNumber)).value), MaxLineLength);
              var st := Run(Start(head), lines2);
              && st.valid && DeclsRemoved(lines2, 0).Some?
              && ExpandsFrom(r.value, ReadLines(Concat(DeclsRemoved(lines2, 0).value), MaxLineLength), st.macros)
  {
    match ExtraSpacesFile(ReadLines(text, BigNumber))
    case None => None
    case Some(out1) =>
      var lines2 := ReadLines(Concat(out1), MaxLineLength);
      var st := Run(Start(head), lines2);
      if !st.valid then None
      else
        match DeclsRemoved(lines2, 0)
        case None => None
        case Some(out2) =>
          var lines3 := ReadLines(Concat(out2), MaxLineLength);
          ExpandedLines(lines3, st.macros);
          Some(Expanded(lines3, st.macros))
  }

  /** `out` has one line per line of `lines`: that line itself, or the body
      of one of `macros` followed by a newline. */
  predicate ExpandsFrom(out: seq<string>, lines: seq<string>, macros: seq<Macro>) {
    && |out| == |lines|
    && forall k | 0 <= k < |lines| ::
         out[k] == lines[k] || exists j | 0 <= j < |macros| :: out[k] == macros[j].content + "\n"
  }

  lemma ExpandedLines(lines: seq<string>, macros: seq<Macro>)
    ensures ExpandsFrom(Expanded(lines, macros), lines, macros)
  {
    var out := Expanded(lines, macros);
    forall k | 0 <= k < |lines|
      ensures out[k] == lines[k] || exists j | 0 <= j < |macros| :: out[k] == macros[j].content + "\n"
    {
      var p := FirstPrefix(macros, lines[k]);
      if IsInvocation(lines[k]) && p.Some? {
        assert out[k] == macros[p.value].content + "\n";
      }
    }
  }

  /** The expansion uses at most one macro: the last definition of the file
      when there is one, otherwise what `head` held on entry. */
  lemma ImplementMacroUsesOneList(text: string, head: seq<Macro>)
    requires ImplementMacro(text, head).Some?
    ensures var out1 := ExtraSpacesFile(ReadLines(text, BigNumber)).value;
            var st := Run(Start(head), ReadLines(Concat(out1), MaxLineLength));
            st.valid && (st.macros == head || |st.macros| == 1)
  {
    var out1 := ExtraSpacesFile(ReadLines(text, BigNumber)).value;
    RunInvariants(Start(head), ReadLines(Concat(out1), MaxLineLength));
  }
}
