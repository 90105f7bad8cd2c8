# A two-pass assembler for a 15-bit teaching machine, modelled in Dafny

The assembler reads an assembly source file and produces an object file plus
entry and extern files. It works in three stages:

1. **Pre-assembler.** It normalises every line: blank runs become single
   spaces, the spaces next to commas are dropped, comment lines are emptied,
   and any line longer than 81 characters rejects the file. It then collects
   `macr NAME` … `endmacr` definitions, blanks the definitions out, and
   replaces each invocation line by the macro body.
2. **Pass 1.** It dispatches every line on its first words:
   - labels go into the label table;
   - `.data` and `.string` fill the data image, counted by DC;
   - `.extern` declares an external label;
   - the sixteen opcodes are encoded into 15-character bit strings in the
     instruction memory, from IC = 100 on.

   After the loop, `.data` labels move past the code.
3. **Pass 2.** It writes the address of the first label operand of each
   line into the first still-empty word of that line (a later label operand
   of the same line stays unresolved): the 12-bit address plus `010`, or zero plus
   `001` for an external label. It records extern uses and `.entry`
   declarations. A listing is then printed and converted to the
   octal object format.

The model follows the C code as written, stage by stage:

- **Text.** A line is a `string`. A file is a `seq<string>`. Re-reading a
  written file is `ReadLines` (repeated `fgets`).
- **Linked lists.** The label table, instruction memory and data image are
  `seq` fields of the class `FirstPassHelp.Memory`. The macro list is the
  `seq` field of `Macros.MacroList`. The methods that append to or patch
  these lists update the fields, and their contracts state the new contents
  against a specification function.
- **Line loops.** Each loop over lines is a method with a `while` loop. It is
  proved equal to a left fold of a per-line function (`FirstPass.LineStep`,
  `SecondPass.SecondStep`, `PreAssembler.Step`). The properties the code
  promises are lemmas about those functions.
- **In-place buffers.** The buffer work of `decimal_to_binary` (fill, reverse,
  complement, increment) works on an `array<char>`.
- **Pure lookups.** Searches over the constant tables are functions.

Modules, in dependency order:

- `CString`: the C library behaviour the code relies on (`strcspn`, `strspn`,
  `strstr`, `strtok`, `sscanf("%s")`, `atoi`, `fgets`, `isspace`).
- `Handle`: `handle.c`.
- `Scanner`: `scanner.c`, with its constant tables.
- `Appendix`: the string functions of `appendix.c`.
- `Macros`: the macro-list and line transforms of `appendix.c`.
- `PreAssembler`: `pre_assembler_help.c` and the stage order of `pre_assembler.c`.
- `Encode`: the bit-string encoders of `first_pass_help.c`.
- `FirstPassHelp`: the list operations of `first_pass_help.c`.
- `FirstPass`: `implement_first_pass`.
- `Output`: `print_memory` and the object-file conversion.
- `SecondPass`: `second_pass.c` and `second_pass_help.c`.
- `Chain`: the end of `implement_first_pass`: the validity gate, pass 2, the listing and the object file.

## Model

| member | source | states |
|---|---|---|
| CString.Tokens | first_pass_help.c:116-128 | the tokens strtok yields are non-empty and free of delimiters, and there are none exactly when the text holds only delimiters |
| CString.TokensTwoOrMore | scanner.c:132-160 | the text holds at least two tokens iff a non-delimiter follows the first token's end |
| CString.Word | first_pass.c:74 | the k-th `%s` conversion is either empty (input ran out) or one of the white-space separated words of the line |
| CString.AtoiIntToString | first_pass.c:74 | atoi reads back every integer printed with `%d` |
| CString.ReadLines | first_pass.c:65 | every line fgets returns is non-empty and shorter than the buffer size |
| CString.ReadLinesConcat | first_pass.c:65 | the lines fgets returns concatenate back to the whole file |
| CString.FindSub | appendix.c:109-131 | strstr gives the first position where the pattern occurs, or None when it occurs nowhere |
| Handle.StartsAndEndsWithQuote | handle.c:51-65 | true iff the text is empty, a lone quote, or a text between two quotes |
| Handle.CheckValidDataComma | handle.c:6-31 | true iff the text is empty or has no leading comma, no trailing comma and no two adjacent commas |
| Handle.FirstOperandStep | handle.c:6-31 | on a well-formed comma list, the text after the first comma is again well formed, and holds one comma and one token fewer |
| Handle.IsValidInteger | handle.c:33-50 | true iff the text is an optional single sign followed by one or more decimal digits |
| Handle.IntToStringIsValidInteger | handle.c:33-50 | every integer printed with `%d` is accepted |
| Handle.AtoiOfValidInteger | handle.c:33-50 | atoi of an accepted text is the signed value of its digits |
| Handle.TrimWhitespace | handle.c:67-85 | the result is the trimmed middle of the input: a contiguous slice with only white space before and after it, starting and ending with a non-space, and empty iff the input is all white space |
| Handle.SkipLeadingSpaces | handle.c:70-71 | the leading loop stops at the first non-space character, after exactly the leading run of white space |
| Handle.LastNonSpace | handle.c:77-79 | the trailing loop stops at the last non-space character at or after the start, with only white space after it |
| Handle.IsEmptyLine | handle.c:88-91 | true iff every character is white space |
| Handle.LineList.constructor | handle.c:93-115 | the line list starts empty |
| Handle.LineList.SaveDataLine | handle.c:93-115 | exactly one node is appended at the tail, and the earlier nodes are unchanged |
| Scanner.EndsWithColon | scanner.c:124-130 | true iff the word is a (possibly empty) name followed by a colon |
| Scanner.IsInstruction | scanner.c:161-164 | true iff the word is a dot followed by anything; the empty word is not |
| Scanner.InstrDetection | scanner.c:45-60 | true iff the word is one of the four directives |
| Scanner.OpcodeDetection | scanner.c:91-106 | true iff the word is one of the sixteen opcode names |
| Scanner.OpcodeNamesListed | scanner.c:20-37 | the set of opcode names is exactly the names in the opcode table |
| Scanner.OpcodeCodeIsIndex | scanner.c:20-37 | every opcode's number is its position in the table |
| Scanner.OpcodeNamesDistinct | scanner.c:20-37 | no opcode name occurs twice in the table |
| Scanner.OpcodeTableShape | scanner.c:20-37 | every opcode lists four target and four source modes, none undetermined, and an opcode without a target has no source either |
| Scanner.OpcodeCode | scanner.c:350-371 | the opcode number the table search leaves is in range and names the word whenever the word is an opcode |
| Scanner.RegDetection | scanner.c:108-122 | returns k+1 for `rk` with k in 0..7, and 0 for any other word |
| Scanner.ExtraCharDetection | scanner.c:132-160 | true iff a space separates two non-space characters |
| Scanner.IsAlphanumericString | scanner.c:399-407 | true iff every character is a letter or a digit |
| Scanner.ValidLabelIff | first_pass_help.c:91-98 | a label is valid iff it is non-empty, starts with a letter, is alphanumeric, and is neither an opcode nor a register name |
| Scanner.CheckOperandStart | scanner.c:372-380 | true iff the operand starts with `#`, `*` or `r` |
| Scanner.IsRestOfLineValid | scanner.c:382-397 | true iff the rest of the line holds only white space |
| Scanner.ValidNumArgument | scanner.c:166-194 | succeeds iff the comma layout is valid and the operand count (0 for empty text, else commas+1) equals the opcode's arity; on success it returns that opcode's number, otherwise 0 |
| Scanner.OperandCountIsTokens | scanner.c:166-194 | on a valid comma layout, commas+1 is the number of comma-separated tokens |
| Scanner.IdentifyAddressingMode | scanner.c:316-337 | each role's mode is 0, 2 or 3 for a leading `#`, `*` or `r`; an undetermined operand becomes 1 only if it is a valid label; an absent operand keeps its initial -2 |
| Scanner.LabelStartingWithRIsRegisterMode | scanner.c:316-337 | a valid label beginning with `r` gets the register mode 3 |
| Scanner.DetectionArgument | scanner.c:340-348 | returns an integer's value, a register name's index, or -1 |
| Scanner.DetectionArgumentOfIndex | scanner.c:340-348 | every integer printed with `%d` is read back as itself |
| Scanner.MatchModes | scanner.c:355-368 | the target flag is set iff the target mode is listed, and the source flag iff both modes are listed |
| Scanner.ValidateParameters | scanner.c:350-371 | succeeds iff the opcode's table entry lists the target mode among its targets and the source mode among its sources |
| Scanner.VisitEntry | scanner.c:354-367 | after entry i the two flags say whether some entry up to i has the name and lists the target mode (and, for the source flag, also the source mode), and the code is set once the name's entry is passed |
| Scanner.LegalModes | scanner.c:350-371 | legal modes are never undetermined, and an absent target implies an absent source |
| Scanner.ParsingArg | scanner.c:196-314 | the loop computes exactly the descriptors of ParseOperands |
| Scanner.ParsedFirstWord | scanner.c:251-260 | an accepted instruction's first descriptor is `op,src,tgt`, with legal modes, encoded in 4-bit fields |
| Scanner.ParsedWordCount | scanner.c:303-309 | an instruction takes one word, plus one per present operand, minus one when both modes exceed 1 (shared register word) |
| Scanner.BuildWordCount | scanner.c:251-309 | the descriptors of any legal mode pair hold that many non-`NULL` words |
| Scanner.ImmediateMinusOneRefused | scanner.c:233-248 | the immediate operand `#-1` is refused |
| Scanner.RegisterNineAccepted | scanner.c:223-248 | `r9` is accepted as register 9 |
| Scanner.IndirectRegistersPacked | scanner.c:303-309 | two `*` operands share one word `0,0,s,t` and the third descriptor is `NULL` |
| Appendix.AddNewFile | appendix.c:9-21 | the result is the ending after the name up to its first `.`, or after the whole name when it has no `.` |
| Appendix.ReplaceEnding | appendix.c:9-21 | applying a second dot-initial ending replaces the first |
| Appendix.CommaRound | appendix.c:70-84 | one memmove round drops the space before the comma (if any) and then the space after it, and resumes after the comma |
| Appendix.RemoveSpacesNextToComma | appendix.c:63-87 | the result is the input unchanged when it starts with a comma, otherwise the input with exactly the spaces next to a comma removed |
| Appendix.ScanIsKept | appendix.c:63-87 | the round-by-round scan removes exactly the spaces next to commas |
| Appendix.KeptTight | appendix.c:63-87 | on a single-spaced line, what is kept has no space next to a comma |
| Appendix.CommaTidyTight | appendix.c:63-87 | a single-spaced line not starting with a comma leaves the pass with no `" ,"` and no `", "` |
| Appendix.ExtraSpacesTight | appendix.c:23-55 | a normalised line whose first visible character is not a comma has no space next to a comma |
| Appendix.KeptVisible | appendix.c:63-87 | removing the spaces next to commas keeps every non-blank character in order |
| Appendix.SkipBlanks | appendix.c:28-30 | skips the maximal run of blanks from the start position |
| Appendix.SqueezeLine | appendix.c:27-52 | the copy loop produces the squeezed line after the leading blanks |
| Appendix.RemoveExtraSpacesStr | appendix.c:23-56 | the result is the squeezed line with the spaces next to commas removed; `Appendix.ExtraSpacesSingleSpaced` proves it single-spaced |
| Appendix.ExtraSpacesSingleSpaced | appendix.c:23-56 | the final line has no leading or trailing blank and no two adjacent blanks: every blank is one space between two non-blanks, not before the newline |
| Appendix.KeptSpaced | appendix.c:63-87 | the comma pass drops only spaces, so every space it keeps on a single-spaced line still follows a non-blank and precedes a non-blank |
| Appendix.ExtraSpacesVisible | appendix.c:23-55 | normalising a line keeps every non-blank character, in order |
| Appendix.SqueezeSingleSpaced | appendix.c:27-52 | after squeezing, every blank is a single space between two non-blanks and never precedes the newline, so there is no leading blank and no two adjacent blanks |
| Macros.SearchList | appendix.c:109-131 | no node iff the list is empty; when found, the first node with that name; when not found, the last node |
| Macros.SearchFrom | appendix.c:109-131 | found iff the line mentions `macr` and some node from the start position has the name, and then it is the first such node |
| Macros.IsValidMacroName | appendix.c:132-135 | true iff the name is not a directive, an opcode or a register name |
| Macros.WithMacro | appendix.c:137-163 | one new node carrying the macro is added, as the new head when there is no predecessor, else right after the predecessor |
| Macros.MacroList.constructor | appendix.c:137-163 | the macro list starts empty |
| Macros.MacroList.AddMacroToList | appendix.c:137-163 | the list becomes WithMacro of the old list |
| Macros.AddedIsFound | appendix.c:137-163 | a macro just added is found by the next search, and one added without a predecessor is the whole list |
| Macros.BlockEnd | appendix.c:205-220 | the first `endmacr` line from a position, or None if there is none |
| Macros.SkipBlock | appendix.c:205-220 | the skip loop stops at the first `endmacr` line after the `macr` line |
| Macros.DeclsRemovedShape | appendix.c:193-225 | when the pass ends, the output has one line per input line; blank lines and every line of a `macr`…`endmacr` block become a newline; other lines are copied |
| Macros.NoDeclsKeepsLines | appendix.c:193-225 | without a `macr` line the pass always ends, emptying blank lines and copying the others |
| Macros.UnclosedNeverEnds | appendix.c:205-220 | a `macr` line with no `endmacr` after it makes the pass fail |
| Macros.RemoveMcrosDecl | appendix.c:166-232 | the loop computes exactly DeclsRemoved of the lines |
| Macros.WriteLines | appendix.c:193-224 | one round copies an ordinary line or drops a whole `macr`…`endmacr` block, so the rest of the output is DeclsRemoved of the lines after it; an unclosed block fails as DeclsRemoved does |
| Macros.FirstPrefix | appendix.c:263-273 | the first macro whose name is a prefix of the line, or None |
| Macros.FindInvoked | appendix.c:263-273 | the search loop finds exactly that first macro |
| Macros.ReplacedLineCases | appendix.c:259-281 | a line is replaced iff it is an invocation with some macro name as prefix, and then by the first such macro's body plus a newline; any other line is copied |
| Macros.ReplaceAllMcros | appendix.c:235-287 | the output has one line per input line, each the replaced line |
| Macros.PrefixInvocation | appendix.c:267-268 | `m1x` invokes macro `m1`, and the body gets an extra newline |
| PreAssembler.RemoveExtraSpacesFile | pre_assembler_help.c:36-53 | the loop computes exactly ExtraSpacesFile of the lines |
| PreAssembler.ExtraSpacesFileSpec | pre_assembler_help.c:38-52 | fails iff some line is longer than 81 characters; otherwise keeps the line count, empties `;` lines and keeps every non-blank character of the other lines |
| PreAssembler.Start | pre_assembler_help.c:60-82 | capture starts with the given list, valid, outside a definition, with empty content |
| PreAssembler.ReadHeader | pre_assembler_help.c:83-113 | the name is the word after `macr ` (or the stale one); a definition starts iff the name is not found and is valid; validity is lost on a rejected name or on text after the name |
| PreAssembler.AddMacro | pre_assembler_help.c:60-142 | the list and the returned flag are those of the capture fold over the lines |
| PreAssembler.ReadMacroLine | pre_assembler_help.c:79-131 | one line moves the list and the six loop variables exactly as one step of the capture fold |
| PreAssembler.OutsideUnchanged | pre_assembler_help.c:79-131 | outside a definition, a non-header line only advances the line number |
| PreAssembler.RejectedHeader | pre_assembler_help.c:91-112 | a header naming a listed or reserved name clears validity and starts no capture |
| PreAssembler.AcceptedHeader | pre_assembler_help.c:97-106 | a header with a fresh valid name starts a capture with empty content at this line, and keeps validity iff nothing follows the name |
| PreAssembler.CaptureAppends | pre_assembler_help.c:127-130 | inside a definition every other line is appended to the body verbatim |
| PreAssembler.FooterReplacesList | pre_assembler_help.c:114-126 | `endmacr` ends the capture and replaces the whole list by the one new macro, and keeps validity iff nothing follows it |
| PreAssembler.RunInvariants | pre_assembler_help.c:60-142 | validity is never regained, and the list is either untouched or a single macro |
| PreAssembler.RedefinitionAfterAnother | pre_assembler_help.c:91-97 | after a different macro has been registered, a header naming any valid name starts a capture |
| PreAssembler.Expanded | pre_assembler.c:34 | one line per input line, each the replaced line |
| PreAssembler.ImplementMacro | pre_assembler.c:7-56 | a failed normalisation gives no file; on success the macro capture ended valid, the declaration removal succeeded, and every output line is the matching line of the declaration-free file or a collected macro body plus a newline |
| PreAssembler.ImplementMacroUsesOneList | pre_assembler.c:7-56 | when the pre-assembler succeeds, the collected list is the initial list or a single macro |
| Encode.FieldValue | first_pass_help.c:308-367 | the n-bit field of v reads back as v mod 2^n |
| Encode.BitsAreField | first_pass_help.c:308-367 | every bit string is the field of its own value |
| Encode.WriteLsbFirst | first_pass_help.c:327-335 | the buffer holds the bits of m, least significant first, padded with zeros |
| Encode.ReverseInPlace | first_pass_help.c:340-345 | the buffer becomes its reverse |
| Encode.InvertInPlace | first_pass_help.c:349-352 | every bit of the buffer is flipped |
| Encode.IncrementInPlace | first_pass_help.c:354-365 | the buffer becomes its binary increment |
| Encode.ComplementField | first_pass_help.c:349-352 | flipping the field of v gives the field of -v-1 |
| Encode.IncrementField | first_pass_help.c:354-365 | incrementing the field of v gives the field of v+1 |
| Encode.WritePositive | first_pass_help.c:320-345 | the buffer holds the field of a non-negative m |
| Encode.NegateInPlace | first_pass_help.c:347-366 | two's complement turns the field of m into the field of -m |
| Encode.DecimalToBinary | first_pass_help.c:308-367 | the result is the length-bit two's-complement field of the value, most significant bit first |
| Encode.DecimalThenOctal | first_pass_help.c:481-495 | binaryToOctal of decimal_to_binary(len, d) is d mod 2^len |
| Encode.ConvertToBinary | first_pass_help.c:369-378 | the result is length bits whose value is 2^d for 0 ≤ d < length and 0 otherwise (one-hot mode, `0000` for an absent operand) |
| Encode.ConvertStrToBinary | first_pass_help.c:261-281 | the loop computes exactly StrToBinary: empty and `NULL` unchanged, else the fields of the tokens followed by the ARE bits |
| Encode.FirstWordToken | first_pass_help.c:293-300 | one token contributes exactly the head of FirstWordFields: the first non-negative number is written unsigned and clears the flag, every later number as a one-hot field |
| Encode.ConvertFirstWordToBinary | first_pass_help.c:284-306 | the loop computes exactly FirstWordToBinary: the first non-negative token as a field, the others one-hot, then the ARE bits |
| Encode.FirstWordLayout | first_pass_help.c:284-306 | the first word is the 4-bit opcode, the one-hot source mode, the one-hot target mode, then `100`: 15 characters |
| Encode.NumberWordLayout | first_pass_help.c:261-281 | a number word is its 12-bit field followed by the ARE bits |
| Encode.RegisterWordLayout | first_pass_help.c:261-281 | a register word is six zeros, the 3-bit source and target registers, then `100`: 15 characters |
| Encode.BinaryToOctal | first_pass_help.c:481-495 | the value of the bit string, modulo 2^32 as the unsigned accumulator wraps |
| Encode.BitStep | first_pass_help.c:487-492 | adding bit i keeps the accumulator equal to the value of the suffix from i modulo 2^32, and the power becomes the next power of two modulo 2^32 |
| Encode.SmallValue | first_pass_help.c:481-495 | strings of at most 32 bits never wrap |
| Encode.LowBits | first_pass_help.c:174-183 | the 15 characters are the low 15 bits of the value, most significant first |
| FirstPassHelp.FindLabel | first_pass_help.c:75-88 | the first label with that name, or None when none has it |
| FirstPassHelp.Memory.constructor | first_pass.c:33-41 | the label table, instruction memory and data image start empty |
| FirstPassHelp.Memory.SearchLabelOnList | first_pass_help.c:75-88 | the search loop returns the first label with that name |
| FirstPassHelp.Memory.AddLabelToList | first_pass_help.c:40-71 | one label is appended at the tail, the other lists unchanged |
| FirstPassHelp.Memory.LabelProcess | first_pass_help.c:9-30 | succeeds iff the word with its colon is at most 31 long, the name is new and a valid label; then exactly one label (name without colon, address, kind) is appended, else nothing |
| FirstPassHelp.AddLabelKeepsNamesDistinct | first_pass_help.c:9-30 | label_process keeps earlier labels, adds at most one, and never lets a name occur twice |
| FirstPassHelp.AddedLabelFound | first_pass_help.c:9-30 | an accepted label is found by name at the end of the table |
| FirstPassHelp.Memory.AddToDataImage | first_pass_help.c:170-203 | one tail node is appended, holding the low 15 bits of the value, the address and the line |
| FirstPassHelp.ValidPrefix | first_pass_help.c:117-129 | the tokens stored are those before the first one that is not an integer |
| FirstPassHelp.Memory.CheckValidData | first_pass_help.c:109-135 | appends one word per integer token, in order, from DC on, stopping at the first bad token but keeping the earlier words; nothing on a bad comma layout; DC advances by the count |
| FirstPassHelp.Memory.StoreIntegers | first_pass_help.c:116-129 | the token loop stores the values of the valid prefix of the tokens at consecutive addresses |
| FirstPassHelp.Memory.StoreInteger | first_pass_help.c:118-121 | the valid integer token i is stored as the next data word at address DC+i; labels and code stay the same |
| FirstPassHelp.StringValuesOfQuoted | first_pass_help.c:137-152 | a quoted string of n ≥ 2 characters stores its n-2 inner character codes and then 0 |
| FirstPassHelp.Memory.CheckValidString | first_pass_help.c:137-152 | appends the stored values of the string from DC on, and DC advances by their count; nothing when it is not quoted |
| FirstPassHelp.Memory.StoreChar | first_pass_help.c:141-144 | the character code of the k-th quoted character is stored as the next data word at address DC+k; labels and code stay the same |
| FirstPassHelp.Memory.AddToInstructionMemory | first_pass_help.c:208-225 | one tail node is appended with the line, address and bits |
| FirstPassHelp.Memory.OpcodeProcess | first_pass_help.c:380-433 | succeeds iff the instruction is accepted; then its words are appended at consecutive addresses from IC and IC advances by their count; on failure nothing changes |
| FirstPassHelp.Memory.EmitInstruction | first_pass_help.c:414-427 | the first word and each non-`NULL` operand word are appended at consecutive addresses |
| FirstPassHelp.OpcodeWordCount | first_pass_help.c:380-433 | an accepted instruction emits 1 to 3 words, as many as its descriptors count, the first being its first word |
| FirstPassHelp.StrToBinaryNull | first_pass_help.c:265-267 | only a `NULL` descriptor converts to `NULL` |
| FirstPassHelp.ShiftDataLabels | first_pass_help.c:155-164 | every `.data` label's address grows by IC; names, kinds, other addresses and order are unchanged |
| FirstPassHelp.ShiftKeepsLookup | first_pass_help.c:155-164 | shifting changes no lookup by name |
| FirstPassHelp.Memory.UpdateDataLabel | first_pass_help.c:155-164 | the table becomes the shifted table |
| FirstPass.InstructionDataProcess | first_pass_help.c:101-107 | succeeds iff the word is `.data` or `.string`, and then stores the directive's values; data errors inside still succeed |
| FirstPass.ProcessLine | first_pass.c:65-154 | one iteration of the loop computes exactly LineStep on the pass-1 state |
| FirstPass.ImplementFirstPass | first_pass.c:17-156 | the final state is the fold of LineStep over the lines followed by the `.data` shift |
| FirstPass.StepKeepsLayout | first_pass.c:65-154 | every line keeps code addresses consecutive from 100 to IC, data addresses consecutive from 0 to DC, and every label inside its segment |
| FirstPass.RunLaidOut | first_pass.c:65-154 | after any number of lines the memory is laid out that way |
| FirstPass.FinalDataLabels | first_pass.c:155 | after the shift every `.data` label lies between IC and IC+DC |
| FirstPass.RunNamesDistinct | first_pass.c:65-154 | the label table never holds a name twice |
| FirstPass.StepExtends | first_pass.c:65-154 | a line only appends to the three lists and never makes an invalid file valid |
| FirstPass.InvalidStays | first_pass.c:65-154 | once invalid, the file stays invalid to the end of input |
| FirstPass.SkippedLines | first_pass.c:75-78 | comment lines, blank lines and `.entry` lines change no pass-1 state |
| FirstPass.UnrecognisedLineInvalidates | first_pass.c:142-153 | a non-empty line with an unrecognised first word makes the file invalid |
| FirstPass.LabelledOtherIgnored | first_pass.c:79-117 | a labelled line whose second word is neither a directive nor an opcode changes nothing |
| FirstPass.LabelledData | first_pass.c:87-93 | a labelled `.data`/`.string` line stores its values first, then registers the label as `.data` with the DC from before the line |
| FirstPass.LabelledInstruction | first_pass.c:100-116 | a labelled instruction emits its words first, then registers the label as `.code` with the IC from before the line; a refused instruction only clears validity |
| FirstPass.ExternRegistered | first_pass.c:125-129 | `.extern NAME` registers NAME as `.external` at address 0, and a name already in the table makes the file invalid |
| FirstPass.LabelBeforeExternInvalidates | first_pass.c:83-98 | a label before `.entry`/`.extern` makes the file invalid and registers nothing |
| FirstPass.DataErrorsKeepValid | scanner.c:62-88 | a `.data` line never changes validity, whatever its operands |
| Output.Relocated | first_pass.c:198-202 | every data address moves by IC; values and lines are unchanged |
| Output.PrintMemory | first_pass.c:190-204 | the listing is the header, the code words in order, then the data words at their moved addresses, which are also updated in place |
| Output.PrintCode | first_pass.c:193-197 | one line per code word, in list order, giving its address and bits |
| Output.RelocateData | first_pass.c:198-203 | every data address moves by IC in place, code and labels are unchanged, and one line per moved data word is written in order |
| Output.RadixRoundTrip | first_pass_help.c:517-529 | printing a number in base 2..10 and reading it back gives the number |
| Output.PadZerosValue | first_pass_help.c:517-529 | zero padding does not change the value |
| Output.OctalFieldOfWord | first_pass_help.c:517-529 | a 15-bit word prints as five octal digits with its value, and an empty word prints as `00001` |
| Output.DataWordOctal | first_pass_help.c:517-529 | a data word prints the stored value mod 2^15 in octal |
| Output.AddressDigits | first_pass_help.c:517-529 | an address below 10000 prints as four decimal digits with its value |
| Output.ObjectLineLayout | first_pass_help.c:517-529 | an object line is the address field, a space, the octal word and a newline |
| Output.ConvertWord | first_pass_help.c:517-529 | the per-word rule gives exactly the object line of that word |
| Output.CopyAndConvertFile | first_pass_help.c:497-531 | the object file is the header copied, then one object line per listed word, code first |
| Chain.ImplementFirstPassFiles | first_pass.c:155-176 | the files written are those of Assembled: nothing when pass 1 left the file invalid, otherwise pass 2's entry and extern files and the object file of the listing |
| Chain.WrittenIffValid | first_pass.c:158-161 | the files are written exactly when pass 1 left the file valid |
| Chain.ObjectFileShape | first_pass.c:162-172 | the object file has the header of the final IC and DC, one line per code word at its pass-1 address with its resolved bits (unchanged unless pass 2 filled it), then one line per data word at its address moved by IC |
| SecondPass.FindExternWord | second_pass_help.c:92-107 | the first word of the line equal to the extern word, or None |
| SecondPass.FindAddress | second_pass_help.c:92-107 | the address of the first extern word of the line, or 0 |
| SecondPass.FirstEmpty | second_pass_help.c:59-73 | the first still-empty word of the line, or None |
| SecondPass.InsertedChangesOne | second_pass_help.c:59-73 | at most one word changes, the first empty one of the line; addresses, lines, order and all other words are unchanged |
| SecondPass.InsertLabelAddress | second_pass_help.c:59-73 | the instruction memory becomes Inserted of the old memory; labels and data are unchanged |
| SecondPass.CheckValidEntry | second_pass_help.c:75-88 | the address of the first label with that name (0 for an external label), or 0 when none has it |
| SecondPass.ExternLabelWord | second_pass_help.c:36-43 | an external label's word is twelve zeros and `001` |
| SecondPass.LocalLabelWord | second_pass_help.c:45-50 | any other label's word is its 12-bit address and `010` |
| SecondPass.LocalOperandResolved | second_pass_help.c:45-50 | a local label operand writes its word into the line's first empty word and writes no record |
| SecondPass.ExternOperandResolved | second_pass_help.c:36-43 | an external label operand writes the extern word and one extern record with the address of the line's first extern word |
| SecondPass.UndefinedOperandIgnored | second_pass_help.c:30-32 | an operand that is no label changes nothing |
| SecondPass.FirstLabelToken | second_pass_help.c:28-55 | the first token that does not start with `#`, `*` or `r` and names a label; no earlier token does, and None when no token does |
| SecondPass.ResolveOperand | second_pass_help.c:30-53 | one token iteration computes exactly ResolveToken, and reports whether the token named a label |
| SecondPass.ChekForLabelArgument | second_pass_help.c:11-57 | the token loop computes exactly Resolve on the operand text: the first label operand is resolved and the loop meets no later operand |
| SecondPass.ResolvedIffFirstLabel | second_pass_help.c:26-55 | token i is resolved exactly when it names a label and no earlier token does |
| SecondPass.ResolveWritesAtMostOne | second_pass_help.c:26-55 | an operand text fills at most one word, keeps the others, adds at most one extern record after the old ones, and no entry record |
| SecondPass.ResolveKeepsLayout | second_pass_help.c:11-57 | resolving operands keeps every word's address and line, only fills empty words, and writes no entry record |
| SecondPass.SecondLine | second_pass.c:49-72 | one iteration of the loop computes exactly SecondStep, which resolves only the first label operand of the line |
| SecondPass.SecondRunKeepsLayout | second_pass.c:47-74 | pass 2 adds and removes no word, keeps addresses, lines and order, and only fills empty words |
| SecondPass.EntryRecordPerLine | second_pass.c:69-72 | every `.entry NAME` line writes exactly one record `NAME address`, with address 0 for an undefined name; no other line writes one |
| SecondPass.EntryRecordCount | second_pass.c:47-74 | the entry records number exactly the `.entry` lines |
| SecondPass.RecordFile | second_pass.c:87-93 | a record file is removed iff it received no record |
| SecondPass.ImplementSecondPass | second_pass.c:10-97 | the memory, entry and extern files are those of the fold of SecondStep over the lines, labels and data are untouched, and the pass always reports success; on each line only the first label operand is resolved |
| SecondPass.SecondLabelOperandUnresolved | second_pass_help.c:26-55 | for the operands `X,Y` of two external labels only X is resolved: one record `X 101`, and Y's word stays empty |
| SecondPass.FirstExternResolved | second_pass_help.c:36-43 | the external operand X fills the first empty word of its line with the extern word and is recorded at that word's address |

## Left out

- File handling is not modelled: opening, reading, writing, seeking, measuring and removing files, and the temporary file names. Files are `seq<string>`. A removed output file is `None`.
- The driver `assembler.c` is not part of this model, and neither is the head list it keeps across source files. `PreAssembler.ImplementMacro` takes the initial macro list as a parameter.
- Memory management is not modelled: allocation, `duplicate`, the `free_*` functions and leaks. Value semantics replace pointers.
- Printed diagnostics are not modelled. Errors appear only as the validity flag or as `None`.
- The debug printers `printlist` and `printlist_label` are not modelled.
- `create_entry_file` and `update_label_type` are not modelled. Nothing in the modelled code calls them.
- The parameter order of the `identifyAddressingMode` prototype (first_pass.h:556) differs from its definition. The model follows the definition (scanner.c:316).
- `strtok`'s hidden state is modelled by tokenising the whole string at once. In `chek_for_label_argument` the nested `strtok` of `convert_str_to_binary` (first_pass_help.c:269-274) moves that state into the converted word. The model therefore ends the operand loop after the first label operand. With glibc, the loop then reads one more token, the tail of the converted word, which is made of bits. The model takes it to name no label, since `is_valid_label` makes every label start with a letter (first_pass_help.c:91-96).
- Fixed-size buffers are not modelled. Their limits appear as preconditions instead:
  - `Encode.DecimalToBinary` requires |d| < 2^length: there its result is the length-bit field.
  - FirstPassHelp.OpcodeWords and Encode.StrToBinary: an immediate value outside the 12-bit range is truncated to its low 12 bits. `parsing_arg` does not range-check immediates (scanner.c:223-248), and `decimal_to_binary` (first_pass_help.c:327-345) then writes all bits of the value and reverses only the first `length` of them. C therefore emits a longer word, for `#5000` the 16-character `"001110001000" + "1" + "100"`, where the model emits the 15-character word of 5000 mod 4096. Values of 2^15 or more also write past the 16-byte buffer in C.
    - `Encode.ConvertStrToBinary` and `Encode.ConvertFirstWordToBinary` require that every field fits.
    - Elsewhere, words are modelled with total truncation (`Field`).
- Encode.BinaryToOctal: the 32-bit unsigned wrap-around is modelled, but the result is stated for bit strings of any length. It is used only on 15-character words.
- FirstPassHelp.Codes: characters are taken as ASCII. C stores a `.string` character as a signed `char` (first_pass_help.c:142), so a byte of 0x80 or more is stored negative (0xC3 as -61, whose low 15 bits are 32707). The model stores the character's code point.
- `atoi` overflow is not modelled. Integers are unbounded, and `Atoi` reads the leading digits.
- Handle.CheckValidDataComma: the empty string is modelled as valid. The C code reads `rest_of_line[-1]` there (handle.c:26), which is undefined behaviour, and zero-operand opcodes reach it through `valid_num_argument` (scanner.c:170).
- PreAssembler.ReadHeader: the stale macro name a header without a name reuses starts as `""`. In C, `temp_name` is uninitialised.
- Macros.RemoveMcrosDecl: a `macr` line without a closing `endmacr` loops forever in C. The model gives `None`, the same as a failed stage.
- PreAssembler.AddMacro: the body is an unbounded string. `macro_content` is a fixed buffer in C, and its overflow is not modelled.

## Divergences between the code and its comments

The model keeps the code's behaviour. Each divergence below has a lemma
that exhibits it.

- **Only the last macro survives.** `add_macro` resets `temp` to NULL on every line (pre_assembler_help.c:82), so `add_macro_to_list` makes each new macro the whole list (appendix.c:156-157). Duplicate detection therefore sees only the last macro. Lemmas: `PreAssembler.FooterReplacesList`, `PreAssembler.RunInvariants`, `PreAssembler.RedefinitionAfterAnother`, `PreAssembler.ImplementMacroUsesOneList`.
- **An invocation is a prefix match.** `strncmp` compares only the macro name's length (appendix.c:267), so `m1x` invokes `m1`. The replacement also gets an extra newline (appendix.c:268). Lemma: `Macros.PrefixInvocation`.
- **Indirect operands share a word.** The shared register word is built for modes 2 and 3 alike (scanner.c:303). Lemma: `Scanner.IndirectRegistersPacked`.
- **Labels starting with `r` cannot be operands.** Every operand that starts with `r` gets the register mode (scanner.c:39-43, 316-329). Lemma: `Scanner.LabelStartingWithRIsRegisterMode`.
- **There is no register range check.** `r9` is accepted as register 9. Lemma: `Scanner.RegisterNineAccepted`.
- **`#-1` is refused.** The value -1 doubles as the error code of `detection_argument`. Lemma: `Scanner.ImmediateMinusOneRefused`.
- **Data errors keep the file valid.** `instr_data_detection` returns 1 even when `.data`/`.string` reported an error (scanner.c:67-87). Lemma: `FirstPass.DataErrorsKeepValid`.
- **A label before `.entry`/`.extern` invalidates the file.** The skip test compares the label word instead of the directive (first_pass.c:83). Lemma: `FirstPass.LabelBeforeExternInvalidates`.
- **Pass-2 errors are ignored.** Undefined operands are skipped silently, and `.entry` of an undefined name still writes a record with address 0 (second_pass.c:69-72, 96). Lemmas: `SecondPass.UndefinedOperandIgnored`, `SecondPass.EntryRecordPerLine`, `SecondPass.ImplementSecondPass`.
- **Only the first label operand of a line is resolved.** `convert_str_to_binary` runs its own `strtok` over the converted word (first_pass_help.c:269-274), so the loop's `strtok(NULL, ",")` (second_pass_help.c:55) never returns a later operand. For `mov X,Y` with X and Y external, only `X 101` is recorded, and Y's word stays empty. Lemmas: `SecondPass.SecondLabelOperandUnresolved`, `SecondPass.ResolvedIffFirstLabel`.
- **Empty operand text is read out of bounds** (handle.c:26). See `Handle.CheckValidDataComma` under Left out.
