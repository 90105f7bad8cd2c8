/** The macro list of the pre-assembler and the two line transforms that
    use it (appendix.c:109-287): the search, the name check, the insertion,
    the removal of macro definitions and the expansion of invocations. */
module Macros {
  import opened CString
  import opened Scanner
  import opened Appendix

  /** A node of the macro list: name, body and the line of its definition. */
  datatype Macro = Macro(name: string, content: string, line: int)

  /** What search_list hands back: its `found` flag and the node it returns
      (an index into the list, None for NULL). */
  datatype Search = Search(found: bool, node: Option<nat>)

  /** The line holds "macr" somewhere (strstr). */
  predicate MentionsMacr(line: string) {
    FindSub(line, "macr").Some?
  }

  // ---------------------------------------------------------------------
  // search_list

  /** search_list (appendix.c:109-131) from node `i` on: the first node with
      that name when the line mentions "macr", otherwise the last node. */
  function SearchFrom(macros: seq<Macro>, name: string, line: string, i: nat): (r: Search)
    requires i < |macros|
    ensures r.node.Some? && i <= r.node.value < |macros|
    ensures r.found ==> macros[r.node.value].name == name
    ensures r.found ==> forall j | i <= j < r.node.value :: macros[j].name != name
    ensures !r.found ==> r.node.value == |macros| - 1
    ensures r.found <==> MentionsMacr(line) && exists j | i <= j < |macros| :: macros[j].name == name
    decreases |macros| - i
  {
    if macros[i].name == name && MentionsMacr(line) then Search(true, Some(i))
    else if i == |macros| - 1 then Search(false, Some(i))
    else SearchFrom(macros, name, line, i + 1)
  }

  /** search_list on the whole list: NULL exactly for the empty list; with
      `found` the first node of that name, without it the last node. */
  function SearchList(macros: seq<Macro>, name: string, line: string): (r: Search)
    ensures r.node.None? <==> macros == []
    ensures r.found ==> r.node.Some? && r.node.value < |macros| && macros[r.node.value].name == name
    ensures r.found ==> forall j | 0 <= j < r.node.value :: macros[j].name != name
    ensures !r.found && macros != [] ==> r.node == Some(|macros| - 1)
    ensures r.found <==> MentionsMacr(line) && exists j | 0 <= j < |macros| :: macros[j].name == name
  {
    if macros == [] then Search(false, None) else SearchFrom(macros, name, line, 0)
  }

  // ---------------------------------------------------------------------
  // is_valid_macro_name

  /** is_valid_macro_name (appendix.c:132-135): not a directive, an opcode
      or a register name. */
  function IsValidMacroName(name: string): (r: bool)
    ensures r <==> name !in {".data", ".string", ".extern", ".entry"} && name !in OpcodeNames && !IsRegisterName(name)
  {
    !InstrDetection(name) && !OpcodeDetection(name) && RegDetection(name) == 0
  }

  // ---------------------------------------------------------------------
  // add_macro_to_list

  /** The list that add_macro_to_list (appendix.c:137-163) leaves: a new node
      with a copy of the body becomes the head when `temp` is NULL, and
      otherwise the successor of node `temp`, which cuts off the nodes after
      it. Its `found` is the constant 0, so the duplicate branch is dead. */
  function WithMacro(macros: seq<Macro>, m: Macro, temp: Option<nat>): (r: seq<Macro>)
    requires temp.Some? ==> temp.value < |macros|
    ensures |r| == (if temp.None? then 0 else temp.value + 1) + 1
    ensures r[|r| - 1] == m
    ensures temp.Some? ==> r[..temp.value + 1] == macros[..temp.value + 1]
  {
    (if temp.None? then [] else macros[..temp.value + 1]) + [m]
  }

  /** The macro list behind the `head` pointer of the pre-assembler. */
  class MacroList {
    var macros: seq<Macro>

    constructor()
      ensures macros == []
    {
      macros := [];
    }

    /** add_macro_to_list (appendix.c:137-163). */
    method AddMacroToList(name: string, content: string, lineNum: int, temp: Option<nat>)
      requires temp.Some? ==> temp.value < |macros|
      modifies this
      ensures macros == WithMacro(old(macros), Macro(name, content, lineNum), temp)
    {
      var node := Macro(name, content, lineNum);
      if temp.None? {
        macros := [node];
      } else {
        macros := macros[..temp.value + 1] + [node];
      }
    }
  }

  /** After an insertion, a search for the new name on a definition line
      finds a node with that name; with `temp` NULL it is the only node. */
  lemma AddedIsFound(macros: seq<Macro>, m: Macro, temp: Option<nat>, line: string)
    requires temp.Some? ==> temp.value < |macros|
    requires MentionsMacr(line)
    ensures var r := SearchList(WithMacro(macros, m, temp), m.name, line);
            r.found && r.node.Some?
    ensures temp.None? ==> WithMacro(macros, m, temp) == [m]
  {
    var l := WithMacro(macros, m, temp);
    assert l[|l| - 1].name == m.name;
  }

  // ---------------------------------------------------------------------
  // remove_mcros_decl

  /** The delimiters of the strtok calls of remove_mcros_decl. */
  const LineDelims: set<char> := {' ', '\n'}

  /** strtok finds no token: the line counts as blank. */
  predicate IsBlankLine(l: string) {
    Tokens(l, LineDelims) == []
  }

  /** The first token of the line is `w`. */
  predicate StartsWithToken(l: string, w: string) {
    Tokens(l, LineDelims) != [] && Tokens(l, LineDelims)[0] == w
  }

  /** The first line from `j` on whose first token is "endmacr". */
  function BlockEnd(lines: seq<string>, j: nat): (r: Option<nat>)
    requires j <= |lines|
    ensures r.Some? ==> j <= r.value < |lines| && StartsWithToken(lines[r.value], "endmacr")
    ensures r.Some? ==> forall k | j <= k < r.value :: !StartsWithToken(lines[k], "endmacr")
    ensures r.None? ==> forall k | j <= k < |lines| :: !StartsWithToken(lines[k], "endmacr")
    decreases |lines| - j
  {
    if j == |lines| then None
    else if StartsWithToken(lines[j], "endmacr") then Some(j)
    else BlockEnd(lines, j + 1)
  }

  /** `n` empty lines. */
  function Newlines(n: nat): (r: seq<string>)
    ensures |r| == n && forall k | 0 <= k < n :: r[k] == "\n"
  {
    seq(n, _ => "\n")
  }

  function Prepend(ls: seq<string>, r: Option<seq<string>>): Option<seq<string>> {
    if r.None? then None else Some(ls + r.value)
  }

  /** What remove_mcros_decl (appendix.c:166-232) writes for `lines[i..]`:
      a blank line becomes "\n"; from a line whose first token is "macr"
      through the first later line whose first token is "endmacr", every
      line becomes "\n"; any other line is copied. When a definition is never
      closed the routine reads past the end of the file forever: None. */
  function DeclsRemoved(lines: seq<string>, i: nat): Option<seq<string>>
    requires i <= |lines|
    decreases |lines| - i
  {
    if i == |lines| then Some([])
    else if IsBlankLine(lines[i]) then Prepend(["\n"], DeclsRemoved(lines, i + 1))
    else if StartsWithToken(lines[i], "macr") then
      match BlockEnd(lines, i + 1)
      case None => None
      case Some(j) => Prepend(Newlines(j + 1 - i), DeclsRemoved(lines, j + 1))
    else Prepend([lines[i]], DeclsRemoved(lines, i + 1))
  }

  /** `out` stands for `lines[i..i + |out|]` line by line: each output line
      is "\n" or the input line itself, and "\n" for every blank line and
      every line starting with "macr". */
  predicate Covers(lines: seq<string>, i: nat, out: seq<string>) {
    && i + |out| <= |lines|
    && (forall k | 0 <= k < |out| :: out[k] == "\n" || out[k] == lines[i + k])
    && (forall k | 0 <= k < |out| ::
          IsBlankLine(lines[i + k]) || StartsWithToken(lines[i + k], "macr") ==> out[k] == "\n")
  }

  lemma CoversJoin(lines: seq<string>, i: nat, a: seq<string>, b: seq<string>)
    requires Covers(lines, i, a) && Covers(lines, i + |a|, b)
    ensures Covers(lines, i, a + b)
  {
    forall k | |a| <= k < |a| + |b|
      ensures (a + b)[k] == b[k - |a|] && lines[i + k] == lines[i + |a| + (k - |a|)]
    {
    }
  }

  /** One output line per input line, each "\n" or the input line itself,
      and "\n" for every blank line and every line starting with "macr". */
  lemma {:induction false} DeclsRemovedShape(lines: seq<string>, i: nat)
    requires i <= |lines| && DeclsRemoved(lines, i).Some?
    ensures |DeclsRemoved(lines, i).value| == |lines| - i
    ensures Covers(lines, i, DeclsRemoved(lines, i).value)
    decreases |lines| - i, 1
  {
    if i < |lines| {
      if IsBlankLine(lines[i]) {
        LineShape(lines, i, "\n");
      } else if StartsWithToken(lines[i], "macr") {
        BlockShape(lines, i);
      } else {
        LineShape(lines, i, lines[i]);
      }
    }
  }

  /** The case of DeclsRemovedShape where line `i` becomes the single line `l`. */
  lemma {:induction false} LineShape(lines: seq<string>, i: nat, l: string)
    requires i < |lines| && DeclsRemoved(lines, i).Some?
    requires !StartsWithToken(lines[i], "macr") || IsBlankLine(lines[i])
    requires l == if IsBlankLine(lines[i]) then "\n" else lines[i]
    ensures DeclsRemoved(lines, i + 1).Some?
    ensures DeclsRemoved(lines, i).value == [l] + DeclsRemoved(lines, i + 1).value
    ensures |DeclsRemoved(lines, i).value| == |lines| - i
    ensures Covers(lines, i, DeclsRemoved(lines, i).value)
    decreases |lines| - i, 0
  {
    var rest := DeclsRemoved(lines, i + 1);
    assert DeclsRemoved(lines, i) == Prepend([l], rest);
    DeclsRemovedShape(lines, i + 1);
    assert Covers(lines, i, [l]);
    CoversJoin(lines, i, [l], rest.value);
  }

  /** The case of DeclsRemovedShape where line `i` opens a definition. */
  lemma {:induction false} BlockShape(lines: seq<string>, i: nat)
    requires i < |lines| && DeclsRemoved(lines, i).Some?
    requires !IsBlankLine(lines[i]) && StartsWithToken(lines[i], "macr")
    ensures |DeclsRemoved(lines, i).value| == |lines| - i
    ensures Covers(lines, i, DeclsRemoved(lines, i).value)
    decreases |lines| - i, 0
  {
    var j := BlockEnd(lines, i + 1).value;
    var rest := DeclsRemoved(lines, j + 1);
    assert DeclsRemoved(lines, i) == Prepend(Newlines(j + 1 - i), rest);
    DeclsRemovedShape(lines, j + 1);
    NewlinesCover(lines, i, j + 1 - i);
    CoversJoin(lines, i, Newlines(j + 1 - i), rest.value);
  }

  lemma NewlinesCover(lines: seq<string>, i: nat, n: nat)
    requires i + n <= |lines|
    ensures Covers(lines, i, Newlines(n))
  {
  }

  /** Without definitions nothing but blank lines changes, and the routine
      ends. */
  lemma {:induction false} NoDeclsKeepsLines(lines: seq<string>, i: nat)
    requires i <= |lines|
    requires forall k | i <= k < |lines| :: !StartsWithToken(lines[k], "macr")
    ensures DeclsRemoved(lines, i).Some?
    ensures var out := DeclsRemoved(lines, i).value;
            |out| == |lines| - i &&
            forall k | i <= k < |lines| :: out[k - i] == if IsBlankLine(lines[k]) then "\n" else lines[k]
    decreases |lines| - i
  {
    if i < |lines| {
      NoDeclsKeepsLines(lines, i + 1);
      var l := if IsBlankLine(lines[i]) then "\n" else lines[i];
      LineStep(lines, i, l);
      var rest := DeclsRemoved(lines, i + 1).value;
      var out := [l] + rest;
      forall k | i < k < |lines|
        ensures out[k - i] == if IsBlankLine(lines[k]) then "\n" else lines[k]
      {
        assert out[k - i] == rest[k - (i + 1)];
      }
    }
  }

  /** A definition that is never closed makes the routine run forever. */
  lemma UnclosedNeverEnds(lines: seq<string>, i: nat)
    requires i < |lines| && StartsWithToken(lines[i], "macr") && !IsBlankLine(lines[i])
    requires forall k | i < k < |lines| :: !StartsWithToken(lines[k], "endmacr")
    ensures DeclsRemoved(lines, i).None?
  {
    assert BlockEnd(lines, i + 1).None?;
  }

  /** The loop over the lines of a definition block in remove_mcros_decl
      (appendix.c:205-220): one "\n" per line until the line whose first
      token is "endmacr"; None when the lines run out first. */
  method SkipBlock(lines: seq<string>, i: nat) returns (r: Option<nat>)
    requires i < |lines|
    ensures r == BlockEnd(lines, i + 1)
  {
    var j := i + 1;
    while j < |lines| && !StartsWithToken(lines[j], "endmacr")
      invariant i + 1 <= j <= |lines|
      invariant BlockEnd(lines, j) == BlockEnd(lines, i + 1)
    {
      j := j + 1;
    }
    if j == |lines| {
      return None;
    }
    return Some(j);
  }

  lemma PrependJoin(a: seq<string>, b: seq<string>, r: Option<seq<string>>)
    ensures Prepend(a, Prepend(b, r)) == Prepend(a + b, r)
    ensures Prepend([], r) == r
  {
    if r.Some? {
      assert a + (b + r.value) == a + b + r.value;
      assert [] + r.value == r.value;
    }
  }

  lemma PrependStep(whole: Option<seq<string>>, out: seq<string>, cur: Option<seq<string>>, x: seq<string>, next: Option<seq<string>>)
    requires whole == Prepend(out, cur) && cur == Prepend(x, next)
    ensures whole == Prepend(out + x, next)
  {
    PrependJoin(out, x, next);
  }

  /** A line outside any definition is written as "\n" when blank, else as is. */
  lemma LineStep(lines: seq<string>, i: nat, l: string)
    requires i < |lines|
    requires !StartsWithToken(lines[i], "macr") || IsBlankLine(lines[i])
    requires l == if IsBlankLine(lines[i]) then "\n" else lines[i]
    ensures DeclsRemoved(lines, i) == Prepend([l], DeclsRemoved(lines, i + 1))
  {
  }

  /** A definition from line `i` through its "endmacr" line `j` is written as
      one "\n" per line. */
  lemma BlockStep(lines: seq<string>, i: nat, j: nat)
    requires i < |lines| && !IsBlankLine(lines[i]) && StartsWithToken(lines[i], "macr")
    requires BlockEnd(lines, i + 1) == Some(j)
    ensures DeclsRemoved(lines, i) == Prepend(Newlines(j + 1 - i), DeclsRemoved(lines, j + 1))
  {
  }

  /** One round of the loop of remove_mcros_decl (appendix.c:193-224): a
      blank line gives "\n", a definition gives one "\n" per line through its
      "endmacr" line (None when that line never comes), any other line is
      copied; `next` is the first line not yet read. */
  method WriteLines(lines: seq<string>, i: nat) returns (written: Option<seq<string>>, next: nat)
    requires i < |lines|
    ensures written.None? ==> DeclsRemoved(lines, i).None?
    ensures written.Some? ==> i < next <= |lines| && DeclsRemoved(lines, i) == Prepend(written.value, DeclsRemoved(lines, next))
  {
    var str := lines[i];
    if IsBlankLine(str) {
      LineStep(lines, i, "\n");
      return Some(["\n"]), i + 1;
    } else if StartsWithToken(str, "macr") {
      var end := SkipBlock(lines, i);
      if end.None? {
        return None, i;
      }
      BlockStep(lines, i, end.value);
      return Some(Newlines(end.value + 1 - i)), end.value + 1;
    } else {
      LineStep(lines, i, str);
      return Some([str]), i + 1;
    }
  }

  /** remove_mcros_decl (appendix.c:166-232) over the lines fgets reads. */
  method RemoveMcrosDecl(lines: seq<string>) returns (r: Option<seq<string>>)
    ensures r == DeclsRemoved(lines, 0)
  {
    var out: seq<string> := [];
    var i := 0;
    PrependJoin([], [], DeclsRemoved(lines, 0));
    while i < |lines|
      invariant i <= |lines|
      invariant DeclsRemoved(lines, 0) == Prepend(out, DeclsRemoved(lines, i))
      decreases |lines| - i
    {
      var written, next := WriteLines(lines, i);
      if written.None? {
        return None;
      }
      PrependStep(DeclsRemoved(lines, 0), out, DeclsRemoved(lines, i), written.value, DeclsRemoved(lines, next));
      out := out + written.value;
      i := next;
    }
    assert out + [] == out;
    r := Some(out);
  }

  // ---------------------------------------------------------------------
  // replace_all_mcros

  /** The first macro from node `i` on whose name is a prefix of the line
      (strncmp over the length of the name). */
  function FirstPrefix(macros: seq<Macro>, l: string, i: nat := 0): (r: Option<nat>)
    requires i <= |macros|
    ensures r.Some? ==> i <= r.value < |macros| && macros[r.value].name <= l
    ensures r.Some? ==> forall j | i <= j < r.value :: !(macros[j].name <= l)
    ensures r.None? ==> forall j | i <= j < |macros| :: !(macros[j].name <= l)
    decreases |macros| - i
  {
    if i == |macros| then None
    else if macros[i].name <= l then Some(i)
    else FirstPrefix(macros, l, i + 1)
  }

  /** A line that replace_all_mcros treats as an invocation: strtok on
      spaces finds exactly one token, and the line does not start with a
      blank. */
  predicate IsInvocation(l: string) {
    |Tokens(l, {' '})| == 1 && l != [] && l[0] !in Blanks
  }

  /** What replace_all_mcros (appendix.c:235-287) writes for one line. */
  function ReplacedLine(l: string, macros: seq<Macro>): string {
    if IsInvocation(l) && FirstPrefix(macros, l).Some? then macros[FirstPrefix(macros, l).value].content + "\n"
    else l
  }

  /** A line is replaced exactly when it is an invocation of some macro,
      whose name is a prefix of it, by the body of the first such macro
      followed by "\n"; every other line is copied. */
  lemma ReplacedLineCases(l: string, macros: seq<Macro>)
    ensures (IsInvocation(l) && exists j | 0 <= j < |macros| :: macros[j].name <= l) ==>
            exists j | 0 <= j < |macros| ::
              && macros[j].name <= l && ReplacedLine(l, macros) == macros[j].content + "\n"
              && forall k | 0 <= k < j :: !(macros[k].name <= l)
    ensures !(IsInvocation(l) && exists j | 0 <= j < |macros| :: macros[j].name <= l) ==>
            ReplacedLine(l, macros) == l
  {
    if IsInvocation(l) && exists j | 0 <= j < |macros| :: macros[j].name <= l {
      var j := FirstPrefix(macros, l).value;
      assert macros[j].name <= l;
    }
  }

  /** The search loop of replace_all_mcros (appendix.c:263-273). */
  method FindInvoked(macros: seq<Macro>, l: string) returns (r: Option<nat>)
    ensures r == FirstPrefix(macros, l)
  {
    var i := 0;
    while i < |macros|
      invariant i <= |macros| && FirstPrefix(macros, l, i) == FirstPrefix(macros, l)
    {
      var name := macros[i].name;
      if |name| <= |l| && l[..|name|] == name {
        return Some(i);
      }
      i := i + 1;
    }
    return None;
  }

  /** replace_all_mcros (appendix.c:235-287) over the lines fgets reads. */
  method ReplaceAllMcros(lines: seq<string>, macros: seq<Macro>) returns (out: seq<string>)
    ensures |out| == |lines|
    ensures forall k | 0 <= k < |lines| :: out[k] == ReplacedLine(lines[k], macros)
  {
    out := [];
    var i := 0;
    while i < |lines|
      invariant i <= |lines| && |out| == i
      invariant forall k | 0 <= k < i :: out[k] == ReplacedLine(lines[k], macros)
    {
      var str := lines[i];
      var line := str;
      if IsInvocation(str) {
        var found := FindInvoked(macros, str);
        if found.Some? {
          line := macros[found.value].content + "\n";
        }
      }
      out := out + [line];
      i := i + 1;
    }
  }

  /** An invocation is matched by prefix: a line that only starts with a
      macro name is replaced as well. */
  lemma PrefixInvocation()
    ensures ReplacedLine("m1x", [Macro("m1", "inc r1\n", 1)]) == "inc r1\n\n"
  {
    var l := "m1x";
    assert l[0] == 'm' && l[1] == '1' && l[2] == 'x';
    TokensOfPlain(l, {' '});
    assert "m1" <= l;
  }
}
