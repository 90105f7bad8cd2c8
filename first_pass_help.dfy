/** The lists the first pass fills (first_pass_help.c): the label table, the
    instruction memory and the data image, each appended to at its tail, and
    the routines that decide what goes into them. */
module FirstPassHelp {
  import opened CString
  import opened Handle
  import opened Scanner
  import opened Encode

  /** MAX_LABEL_LENGTH (globals.h:7). */
  const MaxLabelLength: nat := 31

  /** A label: its name, its type (".data", ".code" or ".external") and its address. */
  datatype Label = Label(name: string, kind: string, address: int)

  /** A node of the instruction memory; empty bits mark a word whose label
      operand the second pass fills in. */
  datatype CodeWord = CodeWord(address: int, line: int, bits: string)

  /** A node of the data image. */
  datatype DataWord = DataWord(address: int, bits: string, line: int)

  /** The first label named `name` from entry `from` on. */
  function FindLabel(labels: seq<Label>, name: string, from: nat := 0): (r: Option<nat>)
    requires from <= |labels|
    ensures r.Some? ==> from <= r.value < |labels| && labels[r.value].name == name
    ensures r.Some? ==> forall j | from <= j < r.value :: labels[j].name != name
    ensures r.None? ==> forall j | from <= j < |labels| :: labels[j].name != name
    decreases |labels| - from
  {
    if from == |labels| then None
    else if labels[from].name == name then Some(from)
    else FindLabel(labels, name, from + 1)
  }

  /** The name label_process registers: the word without a final ':'. */
  function StripColon(word: string): (r: string)
    ensures r == word || word == r + [':']
  {
    if word != [] && word[|word| - 1] == ':' then word[..|word| - 1] else word
  }

  /** label_process accepts a word when its length, counted with the colon,
      is at most 31, the name is not in the table yet, and it is a valid label. */
  predicate LabelAccepted(labels: seq<Label>, word: string) {
    |word| <= MaxLabelLength && FindLabel(labels, StripColon(word)).None? && IsValidLabel(StripColon(word))
  }

  /** The table after label_process. */
  function AddLabel(labels: seq<Label>, word: string, address: int, kind: string): seq<Label> {
    if LabelAccepted(labels, word) then labels + [Label(StripColon(word), kind, address)] else labels
  }

  predicate NamesDistinct(labels: seq<Label>) {
    forall i, j | 0 <= i < j < |labels| :: labels[i].name != labels[j].name
  }

  /** label_process adds one label at the end or nothing, and the table never
      holds a name twice. */
  lemma AddLabelKeepsNamesDistinct(labels: seq<Label>, word: string, address: int, kind: string)
    requires NamesDistinct(labels)
    ensures var r := AddLabel(labels, word, address, kind);
            NamesDistinct(r) && r[..|labels|] == labels
            && |r| == |labels| + (if LabelAccepted(labels, word) then 1 else 0)
  {
    var r := AddLabel(labels, word, address, kind);
    assert r[..|labels|] == labels;
  }

  /** A registered label is found under its name, with its address and type. */
  lemma AddedLabelFound(labels: seq<Label>, word: string, address: int, kind: string)
    requires LabelAccepted(labels, word)
    ensures var r := AddLabel(labels, word, address, kind);
            FindLabel(r, StripColon(word)) == Some(|labels|)
            && r[|labels|] == Label(StripColon(word), kind, address)
  {
    var r := AddLabel(labels, word, address, kind);
    assert forall j | 0 <= j < |labels| :: r[j] == labels[j];
    assert r[|labels|].name == StripColon(word);
  }

  /** The tokens before the first one that is not a valid integer. */
  function ValidPrefix(toks: seq<string>): (r: seq<string>)
    ensures |r| <= |toks| && r == toks[..|r|]
    ensures forall t | t in r :: IsValidInteger(t)
    ensures |r| < |toks| ==> !IsValidInteger(toks[|r|])
  {
    if toks == [] || !IsValidInteger(toks[0]) then []
    else
      var rest := ValidPrefix(toks[1..]);
      assert [toks[0]] + rest == toks[..|rest| + 1];
      [toks[0]] + rest
  }

  /** The prefix ends where the loop of check_valid_data stops. */
  lemma {:induction false} ValidPrefixAt(toks: seq<string>, i: nat)
    requires i <= |toks| && forall j | 0 <= j < i :: IsValidInteger(toks[j])
    requires i == |toks| || !IsValidInteger(toks[i])
    ensures ValidPrefix(toks) == toks[..i]
  {
    if i > 0 {
      ValidPrefixAt(toks[1..], i - 1);
      assert toks[..i] == [toks[0]] + toks[1..][..i - 1];
    }
  }

  /** atoi of each token. */
  function Values(toks: seq<string>): (r: seq<int>)
    ensures |r| == |toks|
  {
    seq(|toks|, k requires 0 <= k < |toks| => Atoi(toks[k]))
  }

  lemma ValuesAppend(toks: seq<string>, t: string)
    ensures Values(toks + [t]) == Values(toks) + [Atoi(t)]
  {
  }

  /** The numbers check_valid_data stores for the operand text of ".data":
      none for a bad comma layout, else the values of the tokens before the
      first one that is not an integer. */
  function DataValues(rest: string): seq<int> {
    if CheckValidDataComma(rest) then Values(ValidPrefix(Tokens(rest, {','}))) else []
  }

  /** The characters between the quotes. */
  function StringBody(rest: string): (r: string)
    ensures |rest| >= 2 ==> |r| == |rest| - 2
  {
    if |rest| >= 2 then rest[1..|rest| - 1] else []
  }

  /** The character codes of a string. */
  function Codes(s: string): (r: seq<int>)
    ensures |r| == |s|
  {
    seq(|s|, k requires 0 <= k < |s| => s[k] as int)
  }

  /** The numbers check_valid_string stores: the codes of the characters
      between the quotes and a terminating 0, or nothing when the text is not
      quoted. */
  function StringValues(rest: string): seq<int> {
    if StartsAndEndsWithQuote(rest) then Codes(StringBody(rest)) + [0] else []
  }

  /** A quoted string of n >= 2 characters stores n-1 values: its n-2 inner
      characters in order, then 0. */
  lemma StringValuesOfQuoted(rest: string)
    requires |rest| >= 2 && rest[0] == '"' && rest[|rest| - 1] == '"'
    ensures var vs := StringValues(rest);
            |vs| == |rest| - 1 && vs[|vs| - 1] == 0
            && forall k | 1 <= k < |rest| - 1 :: vs[k - 1] == rest[k] as int
  {
  }

  /** Words of consecutive addresses from `dc`, each value's low 15 bits. */
  function DataWords(values: seq<int>, dc: int, line: int): (r: seq<DataWord>)
    ensures |r| == |values|
  {
    seq(|values|, k requires 0 <= k < |values| => DataWord(dc + k, Field(15, values[k]), line))
  }

  lemma DataWordsAppend(values: seq<int>, v: int, dc: int, line: int)
    ensures DataWords(values + [v], dc, line) == DataWords(values, dc, line) + DataWords([v], dc + |values|, line)
  {
  }

  /** One more token's word at the end of the data words of a prefix. */
  lemma DataWordsStep(tokens: seq<string>, i: nat, dc: int, line: int)
    requires i < |tokens|
    ensures DataWords(Values(tokens[..i + 1]), dc, line)
            == DataWords(Values(tokens[..i]), dc, line) + DataWords([Atoi(tokens[i])], dc + i, line)
  {
    assert tokens[..i + 1] == tokens[..i] + [tokens[i]];
    ValuesAppend(tokens[..i], tokens[i]);
    DataWordsAppend(Values(tokens[..i]), Atoi(tokens[i]), dc, line);
  }

  /** The words opcode_process emits for the descriptors of an instruction:
      the first word, then each operand word whose descriptor is not "NULL". */
  function EncodedWords(d: Descriptors): seq<string> {
    var w1 := FirstWordToBinary(d.size1, d.first, "100");
    var w2 := StrToBinary(d.size2, d.second, "100");
    var w3 := StrToBinary(d.size3, d.third, "100");
    [w1] + (if w2 != "NULL" then [w2] else []) + (if w3 != "NULL" then [w3] else [])
  }

  /** The words of an instruction line: none when the comma layout or the
      operand count is wrong or parsing_arg refuses the operands. */
  function OpcodeWords(name: string, rest: string): Option<seq<string>> {
    if !(CheckValidDataComma(rest) && ArityMatches(name, rest)) then None
    else match ParseOperands(name, rest)
      case None => None
      case Some(d) => Some(EncodedWords(d))
  }

  /** Instruction memory nodes at consecutive addresses from `ic`. */
  function CodeWords(words: seq<string>, ic: int, line: int): (r: seq<CodeWord>)
    ensures |r| == |words|
  {
    seq(|words|, k requires 0 <= k < |words| => CodeWord(ic + k, line, words[k]))
  }

  /** Only a "NULL" descriptor converts to "NULL". */
  lemma StrToBinaryNull(length: nat, s: string)
    ensures StrToBinary(length, s, "100") == "NULL" <==> s == "NULL"
  {
    if s != [] && s != "NULL" {
      var r := StrToBinary(length, s, "100");
      assert r[|r| - 1] == '0';
    }
  }

  /** An accepted instruction emits one word per descriptor that is not
      "NULL": one, two or three, the first word first. */
  lemma OpcodeWordCount(name: string, rest: string)
    requires OpcodeWords(name, rest).Some?
    ensures var d := ParseOperands(name, rest).value;
            var ws := OpcodeWords(name, rest).value;
            |ws| == WordCount(d) && 1 <= |ws| <= 3
            && ws[0] == FirstWordToBinary(4, d.first, "100")
  {
    var d := ParseOperands(name, rest).value;
    ParsedFirstWord(name, rest);
    StrToBinaryNull(d.size2, d.second);
    StrToBinaryNull(d.size3, d.third);
  }

  /** One label after update_data_label: a data label moved by `ic`. */
  function ShiftedLabel(l: Label, ic: int): Label {
    if l.kind == ".data" then l.(address := l.address + ic) else l
  }

  /** A table shifted entry by entry is the shifted table. */
  lemma ShiftedEach(original: seq<Label>, labels: seq<Label>, ic: int)
    requires |labels| == |original|
    requires forall k | 0 <= k < |labels| :: labels[k] == ShiftedLabel(original[k], ic)
    ensures labels == ShiftDataLabels(original, ic)
  {
    var r := ShiftDataLabels(original, ic);
    forall k | 0 <= k < |labels| ensures labels[k] == r[k] {
      assert r[k].name == original[k].name && r[k].kind == original[k].kind;
    }
  }

  /** The label table after update_data_label: every ".data" label moved by
      `ic`, every other label unchanged, the order kept. */
  function ShiftDataLabels(labels: seq<Label>, ic: int): (r: seq<Label>)
    ensures |r| == |labels|
    ensures forall k | 0 <= k < |r| :: r[k].name == labels[k].name && r[k].kind == labels[k].kind
    ensures forall k | 0 <= k < |r| ::
              r[k].address == labels[k].address + (if labels[k].kind == ".data" then ic else 0)
  {
    if labels == [] then []
    else
      var l := labels[|labels| - 1];
      ShiftDataLabels(labels[..|labels| - 1], ic)
        + [if l.kind == ".data" then l.(address := l.address + ic) else l]
  }

  /** Moving the data labels changes no lookup by name. */
  lemma ShiftKeepsLookup(labels: seq<Label>, ic: int, name: string)
    ensures FindLabel(ShiftDataLabels(labels, ic), name) == FindLabel(labels, name)
  {
    var r := ShiftDataLabels(labels, ic);
    match FindLabel(labels, name)
    case Some(i) =>
      match FindLabel(r, name) {
        case Some(j) =>
        case None =>
      }
    case None =>
      match FindLabel(r, name) {
        case Some(j) =>
        case None =>
      }
  }

  /** The three lists of the first pass; the second pass patches the
      instruction memory of the same object. */
  class Memory {
    var labels: seq<Label>
    var code: seq<CodeWord>
    var data: seq<DataWord>

    constructor ()
      ensures labels == [] && code == [] && data == []
    {
      labels, code, data := [], [], [];
    }

    /** search_label_on_list (first_pass_help.c:75-88), which is also the
        search of find_label_by_name (first_pass_help.c:226-235). */
    method SearchLabelOnList(name: string) returns (r: Option<nat>)
      ensures r == FindLabel(labels, name)
    {
      var i := 0;
      while i < |labels|
        invariant i <= |labels|
        invariant FindLabel(labels, name) == FindLabel(labels, name, i)
      {
        if labels[i].name == name {
          return Some(i);
        }
        i := i + 1;
      }
      return None;
    }

    /** add_label_to_list (first_pass_help.c:40-71): one label at the tail. */
    method AddLabelToList(name: string, address: int, kind: string)
      modifies this
      ensures labels == old(labels) + [Label(name, kind, address)]
      ensures code == old(code) && data == old(data)
    {
      labels := labels + [Label(name, kind, address)];
    }

    /** label_process (first_pass_help.c:9-30). */
    method LabelProcess(word: string, address: int, kind: string) returns (ok: bool)
      modifies this
      ensures ok == LabelAccepted(old(labels), word)
      ensures labels == AddLabel(old(labels), word, address, kind)
      ensures code == old(code) && data == old(data)
    {
      var name := word;
      if |word| > 0 && word[|word| - 1] == ':' {
        name := word[..|word| - 1];
      }
      if |word| > MaxLabelLength {
        return false;
      }
      var found := SearchLabelOnList(name);
      if found.None? && IsValidLabel(name) {
        AddLabelToList(name, address, kind);
        return true;
      }
      return false;
    }

    /** add_to_data_image (first_pass_help.c:170-203): one node at the tail
        holding the low 15 bits of the value. */
    method AddToDataImage(value: int, address: int, line: int)
      modifies this
      ensures data == old(data) + DataWords([value], address, line)
      ensures labels == old(labels) && code == old(code)
    {
      var bits := LowBits(value);
      data := data + [DataWord(address, bits, line)];
    }

    /** check_valid_data (first_pass_help.c:109-135): one word per integer
        token, stopping at the first that is not one. */
    method CheckValidData(rest: string, dc: int, line: int) returns (dc': int)
      modifies this
      ensures data == old(data) + DataWords(DataValues(rest), dc, line)
      ensures dc' == dc + |DataValues(rest)|
      ensures labels == old(labels) && code == old(code)
    {
      dc' := dc;
      if CheckValidDataComma(rest) {
        dc' := StoreIntegers(Tokens(rest, {','}), dc, line);
      }
    }

    /** The token loop of check_valid_data. */
    method StoreIntegers(tokens: seq<string>, dc: int, line: int) returns (dc': int)
      modifies this
      ensures data == old(data) + DataWords(Values(ValidPrefix(tokens)), dc, line)
      ensures dc' == dc + |ValidPrefix(tokens)|
      ensures labels == old(labels) && code == old(code)
    {
      dc' := dc;
      var i := 0;
      while i < |tokens|
        invariant i <= |tokens|
        invariant forall j | 0 <= j < i :: IsValidInteger(tokens[j])
        invariant dc' == dc + i
        invariant data == old(data) + DataWords(Values(tokens[..i]), dc, line)
        invariant labels == old(labels) && code == old(code)
      {
        if !IsValidInteger(tokens[i]) {
          break;
        }
        StoreInteger(tokens, i, dc, line, old(data));
        dc' := dc' + 1;
        i := i + 1;
      }
      ValidPrefixAt(tokens, i);
    }

    /** One round of the token loop of check_valid_data: the valid integer
        `tokens[i]` is stored at address `dc + i`. */
    method StoreInteger(tokens: seq<string>, i: nat, dc: int, line: int, ghost base: seq<DataWord>)
      requires i < |tokens| && IsValidInteger(tokens[i])
      requires data == base + DataWords(Values(tokens[..i]), dc, line)
      modifies this
      ensures data == base + DataWords(Values(tokens[..i + 1]), dc, line)
      ensures labels == old(labels) && code == old(code)
    {
      DataWordsStep(tokens, i, dc, line);
      ConcatAssoc(base, DataWords(Values(tokens[..i]), dc, line), DataWords([Atoi(tokens[i])], dc + i, line));
      AddToDataImage(Atoi(tokens[i]), dc + i, line);
    }

    /** One round of the character loop of check_valid_string: the code of
        `c`, character `k` of the quoted text, is stored at `dc + k`. */
    method StoreChar(c: char, ghost body: string, k: nat, dc: int, line: int, ghost base: seq<DataWord>)
      requires k < |body| && c == body[k]
      requires data == base + DataWords(Codes(body[..k]), dc, line)
      modifies this
      ensures data == base + DataWords(Codes(body[..k + 1]), dc, line)
      ensures labels == old(labels) && code == old(code)
    {
      assert Codes(body[..k + 1]) == Codes(body[..k]) + [c as int];
      DataWordsAppend(Codes(body[..k]), c as int, dc, line);
      ConcatAssoc(base, DataWords(Codes(body[..k]), dc, line), DataWords([c as int], dc + k, line));
      AddToDataImage(c as int, dc + k, line);
    }

    /** check_valid_string (first_pass_help.c:137-152). */
    method CheckValidString(rest: string, dc: int, line: int) returns (dc': int)
      modifies this
      ensures data == old(data) + DataWords(StringValues(rest), dc, line)
      ensures dc' == dc + |StringValues(rest)|
      ensures labels == old(labels) && code == old(code)
    {
      dc' := dc;
      if !StartsAndEndsWithQuote(rest) {
        return;
      }
      ghost var body := StringBody(rest);
      var i := 1;
      while i < |rest| - 1
        invariant 1 <= i <= |body| + 1
        invariant dc' == dc + (i - 1)
        invariant data == old(data) + DataWords(Codes(body[..i - 1]), dc, line)
        invariant labels == old(labels) && code == old(code)
      {
        StoreChar(rest[i], body, i - 1, dc, line, old(data));
        dc' := dc' + 1;
        i := i + 1;
      }
      assert body[..i - 1] == body;
      DataWordsAppend(Codes(body), 0, dc, line);
      AddToDataImage(0, dc', line);
      dc' := dc' + 1;
    }

    /** add_to_instruction_memory (first_pass_help.c:208-225): one node at the tail. */
    method AddToInstructionMemory(line: int, address: int, bits: string)
      modifies this
      ensures code == old(code) + [CodeWord(address, line, bits)]
      ensures labels == old(labels) && data == old(data)
    {
      code := code + [CodeWord(address, line, bits)];
    }

    /** opcode_process (first_pass_help.c:380-433): on success the words of
        the instruction at consecutive addresses from `ic`, and `ic` moved past
        them. */
    method OpcodeProcess(name: string, rest: string, ic: int, line: int) returns (ok: bool, ic': int)
      modifies this
      ensures ok == OpcodeWords(name, rest).Some?
      ensures ok ==> code == old(code) + CodeWords(OpcodeWords(name, rest).value, ic, line)
                     && ic' == ic + |OpcodeWords(name, rest).value|
      ensures !ok ==> code == old(code) && ic' == ic
      ensures labels == old(labels) && data == old(data)
    {
      var numOk, num := ValidNumArgument(name, rest);
      if !numOk {
        return false, ic;
      }
      var parsed := ParsingArg(name, rest);
      if parsed.None? {
        return false, ic;
      }
      var d := parsed.value;
      assert OpcodeWords(name, rest) == Some(EncodedWords(d));
      var first := FirstWordToBinary(d.size1, d.first, "100");
      var second := StrToBinary(d.size2, d.second, "100");
      var third := StrToBinary(d.size3, d.third, "100");
      ic' := EmitInstruction(first, second, third, ic, line);
      return true, ic';
    }

    /** The three additions of opcode_process: the first word always, each
        operand word unless it is "NULL", IC counting them. */
    method EmitInstruction(first: string, second: string, third: string, ic: int, line: int) returns (ic': int)
      modifies this
      ensures var words := [first] + (if second != "NULL" then [second] else []) + (if third != "NULL" then [third] else []);
              code == old(code) + CodeWords(words, ic, line) && ic' == ic + |words|
      ensures labels == old(labels) && data == old(data)
    {
      ghost var words := [first] + (if second != "NULL" then [second] else []) + (if third != "NULL" then [third] else []);
      ic' := ic;
      AddToInstructionMemory(line, ic', first);
      ic' := ic' + 1;
      ghost var n := 1;
      assert code == old(code) + CodeWords(words[..n], ic, line);
      if second != "NULL" {
        AddToInstructionMemory(line, ic', second);
        ic' := ic' + 1;
        n := n + 1;
        assert code == old(code) + CodeWords(words[..n], ic, line);
      }
      if third != "NULL" {
        AddToInstructionMemory(line, ic', third);
        ic' := ic' + 1;
        n := n + 1;
        assert code == old(code) + CodeWords(words[..n], ic, line);
      }
      assert words[..n] == words;
    }

    /** update_data_label (first_pass_help.c:155-164). */
    method UpdateDataLabel(ic: int)
      modifies this
      ensures labels == ShiftDataLabels(old(labels), ic)
      ensures code == old(code) && data == old(data)
    {
      ghost var original := labels;
      var i := 0;
      while i < |labels|
        invariant i <= |labels| == |original|
        invariant forall k | 0 <= k < i :: labels[k] == ShiftedLabel(original[k], ic)
        invariant forall k | i <= k < |labels| :: labels[k] == original[k]
        invariant code == old(code) && data == old(data)
      {
        if labels[i].kind == ".data" {
          labels := labels[i := labels[i].(address := labels[i].address + ic)];
        }
        i := i + 1;
      }
      ShiftedEach(original, labels, ic);
    }
  }
}
