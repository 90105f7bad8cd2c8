/** handle.c: the small text predicates of the first pass (comma layout of an
    operand list, signed integers, quoted strings, blank lines) and the list of
    saved source lines. */
module Handle {
  import opened CString

  /** No comma is directly followed by another comma. */
  predicate NoDoubleComma(s: string) {
    forall j | 0 <= j < |s| - 1 :: !(s[j] == ',' && s[j + 1] == ',')
  }

  /** The for-loop of check_valid_data_comma from index `i` on: it stops with
      failure at a comma that is the last character or is followed by a comma. */
  function CommaScan(s: string, i: nat): (r: bool)
    requires i <= |s|
    ensures r <==> forall j | i <= j < |s| :: s[j] == ',' ==> j < |s| - 1 && s[j + 1] != ','
    decreases |s| - i
  {
    if i == |s| then true
    else if s[i] == ',' && (i == |s| - 1 || s[i + 1] == ',') then false
    else CommaScan(s, i + 1)
  }

  /** check_valid_data_comma (handle.c:6-31). On the empty string the source
      reads the byte before the buffer; the model takes that case as valid. */
  function CheckValidDataComma(s: string): (r: bool)
    ensures r <==> s == [] || (s[0] != ',' && s[|s| - 1] != ',' && NoDoubleComma(s))
  {
    if s != [] && s[0] == ',' then false
    else if !CommaScan(s, 0) then false
    else s == [] || s[|s| - 1] != ','
  }

  /** Cutting a string at its first comma: a comma-free head, the comma, the rest. */
  lemma SplitAtFirstComma(s: string, k: nat)
    requires k == CSpan(s, {','}) && k < |s|
    ensures s == s[..k] + [','] + s[k + 1..]
    ensures Count(s[..k], ',') == 0 && forall c | c in s[..k] :: c !in {','}
  {
    CommaAtSpan(s, k);
    HeadCommaFree(s, k);
  }

  lemma CommaAtSpan(s: string, k: nat)
    requires k == CSpan(s, {','}) && k < |s|
    ensures s == s[..k] + [','] + s[k + 1..]
  {
    var t := s[..k] + [','] + s[k + 1..];
    assert s[k] in {','};
    assert |t| == |s|;
    forall i | 0 <= i < |s| ensures t[i] == s[i] {
      if i < k {
        assert t[i] == s[..k][i];
      } else if k < i {
        assert t[i] == s[k + 1..][i - k - 1];
      }
    }
  }

  lemma HeadCommaFree(s: string, k: nat)
    requires k == CSpan(s, {','}) && k < |s|
    ensures Count(s[..k], ',') == 0 && forall c | c in s[..k] :: c !in {','}
  {
    var a := s[..k];
    forall c | c in a ensures c !in {','} {
      var i :| 0 <= i < k && a[i] == c;
      assert s[i] !in {','};
    }
    assert ',' !in a;
  }

  /** The part of a well-formed comma list after its first comma is a
      well-formed comma list again. */
  lemma RestAfterFirstComma(s: string, k: nat)
    requires s != [] && CheckValidDataComma(s)
    requires k == CSpan(s, {','}) && k < |s|
    ensures s[..k] != []
    ensures k < |s| - 1 && s[k + 1..] != [] && CheckValidDataComma(s[k + 1..])
  {
    assert s[0] != ',';
    RestAfterCommaNoDouble(s, k);
    var b := s[k + 1..];
    assert b[|b| - 1] == s[|s| - 1];
  }

  lemma RestAfterCommaNoDouble(s: string, k: nat)
    requires s != [] && CheckValidDataComma(s)
    requires k == CSpan(s, {','}) && k < |s|
    ensures k < |s| - 1 && s[k + 1] != ','
    ensures NoDoubleComma(s[k + 1..])
  {
    var b := s[k + 1..];
    forall j | 0 <= j < |b| - 1 ensures !(b[j] == ',' && b[j + 1] == ',') {
      assert b[j] == s[k + 1 + j] && b[j + 1] == s[k + 2 + j];
    }
  }

  lemma FirstOperandStep(rest: string, k: nat)
    requires rest != [] && CheckValidDataComma(rest)
    requires k == CSpan(rest, {','}) && k < |rest|
    ensures k < |rest| - 1 && CheckValidDataComma(rest[k + 1..])
    ensures Count(rest, ',') == 1 + Count(rest[k + 1..], ',')
    ensures Tokens(rest, {','}) == [rest[..k]] + Tokens(rest[k + 1..], {','})
  {
    RestAfterFirstComma(rest, k);
    CountStep(rest, k);
    TokensStep(rest, k);
  }
  lemma CountStep(rest: string, k: nat)
    requires k == CSpan(rest, {','}) && k < |rest|
    ensures Count(rest, ',') == 1 + Count(rest[k + 1..], ',')
  {
    var a, cb := rest[..k], rest[k..];
    assert rest == a + cb;
    assert forall i | 0 <= i < k :: a[i] == rest[i] && a[i] != ',';
    assert Count(a, ',') == 0;
    CountConcat(a, cb, ',');
    assert cb[0] == ',' && cb[1..] == rest[k + 1..];
  }
  lemma TokensStep(rest: string, k: nat)
    requires k == CSpan(rest, {','}) && 0 < k < |rest|
    ensures Tokens(rest, {','}) == [rest[..k]] + Tokens(rest[k + 1..], {','})
  {
    SplitAtFirstComma(rest, k);
    TokensCons(rest[..k], ',', rest[k + 1..], {','});
  }

  /** The digit loop of is_valid_integer from index `i` on. */
  function AllDigitsFrom(s: string, i: nat): (r: bool)
    requires i <= |s|
    ensures r <==> forall j | i <= j < |s| :: IsDigit(s[j])
    decreases |s| - i
  {
    if i == |s| then true else IsDigit(s[i]) && AllDigitsFrom(s, i + 1)
  }

  /** The text of a would-be integer after its optional sign. */
  function Unsigned(s: string): string
  {
    if s != [] && (s[0] == '+' || s[0] == '-') then s[1..] else s
  }

  /** is_valid_integer (handle.c:33-50): one optional sign, then one or more decimal digits. */
  function IsValidInteger(s: string): (r: bool)
    ensures r <==> Unsigned(s) != [] && forall c | c in Unsigned(s) :: IsDigit(c)
  {
    if s == [] then false
    else
      var i := if s[0] == '+' || s[0] == '-' then 1 else 0;
      assert Unsigned(s) == s[i..];
      if i == |s| then false else AllDigitsFrom(s, i)
  }

  /** sprintf("%d") always writes a valid integer. */
  lemma IntToStringIsValidInteger(n: int)
    ensures IsValidInteger(IntToString(n))
  {
    var s := IntToString(n);
    if n < 0 {
      assert Unsigned(s) == NatToString(-n);
    } else {
      assert s[0] in NatToString(n);
      assert Unsigned(s) == s;
    }
  }

  /** On a valid integer atoi takes every digit: the value is the signed value of the digits. */
  lemma AtoiOfValidInteger(s: string)
    requires IsValidInteger(s)
    ensures forall c | c in Unsigned(s) :: IsDigit(c)
    ensures Atoi(s) == if s[0] == '-' then -(DigitsValue(Unsigned(s)) as int) else DigitsValue(Unsigned(s))
  {
    var d := Unsigned(s);
    if s[0] != '+' && s[0] != '-' {
      assert s[0] in d;
    }
    assert s[0] !in Whitespace;
    assert Span(s, Whitespace) == 0;
    assert s[0..] == s;
    LeadingDigitsOfDigits(d);
  }

  /** starts_and_ends_with_quote (handle.c:51-65): the empty text, a lone
      quote (its first and last character are the same quote), or a quoted
      text. */
  function StartsAndEndsWithQuote(s: string): (r: bool)
    ensures r <==> s == [] || s == "\"" || exists body :: s == "\"" + body + "\""
  {
    if s == [] then true
    else if s[0] == '"' && s[|s| - 1] == '"' then
      assert |s| >= 2 ==> s == "\"" + s[1..|s| - 1] + "\"";
      true
    else false
  }

  /** Drops trailing white space, one character at a time from the end. */
  function TrimRight(s: string): (r: string)
    ensures |r| <= |s| && r == s[..|r|]
    ensures forall k | |r| <= k < |s| :: IsSpace(s[k])
    ensures r == [] || !IsSpace(r[|r| - 1])
  {
    if s == [] || !IsSpace(s[|s| - 1]) then s else TrimRight(s[..|s| - 1])
  }

  /** The text trim_whitespace leaves: the contiguous middle of `s` without
      leading or trailing white space. */
  function Trimmed(s: string): (r: string)
    ensures exists i, j | 0 <= i <= j <= |s| :: r == s[i..j]
                                                && (forall k | 0 <= k < i :: IsSpace(s[k]))
                                                && (forall k | j <= k < |s| :: IsSpace(s[k]))
    ensures r == [] || (!IsSpace(r[0]) && !IsSpace(r[|r| - 1]))
    ensures r == [] <==> forall c | c in s :: IsSpace(c)
  {
    var i := Span(s, Whitespace);
    var t := TrimRight(s[i..]);
    TrimmedParts(s, i, t);
    t
  }

  lemma TrimmedParts(s: string, i: nat, t: string)
    requires i == Span(s, Whitespace) && t == TrimRight(s[i..])
    ensures t == s[i..i + |t|]
    ensures forall k | 0 <= k < i :: IsSpace(s[k])
    ensures forall k | i + |t| <= k < |s| :: IsSpace(s[k])
    ensures t == [] || (!IsSpace(t[0]) && !IsSpace(t[|t| - 1]))
    ensures t == [] <==> forall c | c in s :: IsSpace(c)
  {
    TrimSlice(s, i, t);
    LeadingSpaces(s, i);
    ShiftSpaces(s, i, |t|);
    TrimStart(s, i, t);
    TrimEmpty(s, i, t);
  }

  lemma TrimSlice(s: string, i: nat, t: string)
    requires i <= |s| && t == TrimRight(s[i..])
    ensures t == s[i..i + |t|]
  {
    forall j | 0 <= j < |t| ensures t[j] == s[i + j] {
      assert t[j] == s[i..][j];
    }
  }

  lemma LeadingSpaces(s: string, i: nat)
    requires i == Span(s, Whitespace)
    ensures forall k | 0 <= k < i :: IsSpace(s[k])
  {
    forall k | 0 <= k < i ensures IsSpace(s[k]) { WhitespaceIsSpace(s[k]); }
  }

  lemma TrimStart(s: string, i: nat, t: string)
    requires i == Span(s, Whitespace) && t == TrimRight(s[i..])
    ensures t != [] ==> !IsSpace(t[0])
  {
    if t != [] {
      assert t[0] == s[i..][0] == s[i];
      assert s[i] !in Whitespace;
      WhitespaceIsSpace(s[i]);
    }
  }

  lemma TrimEmpty(s: string, i: nat, t: string)
    requires i == Span(s, Whitespace) && t == TrimRight(s[i..])
    ensures t == [] <==> forall c | c in s :: IsSpace(c)
  {
    if forall c | c in s :: IsSpace(c) {
      AllSpaceSpan(s);
      assert s[i..] == [];
    }
    if t == [] {
      LeadingSpaces(s, i);
      ShiftSpaces(s, i, 0);
      forall c | c in s ensures IsSpace(c) {
        var k :| 0 <= k < |s| && s[k] == c;
      }
    }
  }

  lemma ShiftSpaces(s: string, i: nat, n: nat)
    requires i + n <= |s|
    requires forall k | n <= k < |s[i..]| :: IsSpace(s[i..][k])
    ensures forall k | i + n <= k < |s| :: IsSpace(s[k])
  {
    forall k | i + n <= k < |s| ensures IsSpace(s[k]) {
      assert s[k] == s[i..][k - i];
    }
  }

  lemma AllSpaceSpan(s: string)
    requires forall c | c in s :: IsSpace(c)
    ensures Span(s, Whitespace) == |s|
  {
    forall k | 0 <= k < |s| ensures IsSpace(s[k]) { assert s[k] in s; }
    SpanIsLeadingSpaces(s, |s|);
  }

  /** trim_whitespace (handle.c:67-85): advances past leading white space and
      then moves the end back over trailing white space. The source writes the
      new terminator into its argument; the model returns the trimmed text. */
  method TrimWhitespace(s: string) returns (r: string)
    ensures r == Trimmed(s)
  {
    var start := SkipLeadingSpaces(s);
    if start == |s| {
      return [];
    }
    var end := LastNonSpace(s, start);
    r := s[start..end + 1];
    TrimRightIsLastNonSpace(s[start..], end + 1 - start);
  }

  /** The first loop of trim_whitespace: the number of leading white-space
      characters. */
  method SkipLeadingSpaces(s: string) returns (start: nat)
    ensures start == Span(s, Whitespace)
    ensures start <= |s| && (start < |s| ==> !IsSpace(s[start]))
  {
    start := 0;
    while start < |s| && IsSpace(s[start])
      invariant start <= |s|
      invariant forall k | 0 <= k < start :: IsSpace(s[k])
    {
      start := start + 1;
    }
    SpanIsLeadingSpaces(s, start);
  }

  /** The second loop of trim_whitespace: the index of the last character
      that is not white space, which exists since s[start] is not. */
  method LastNonSpace(s: string, start: nat) returns (end: nat)
    requires start < |s| && !IsSpace(s[start])
    ensures start <= end < |s| && !IsSpace(s[end])
    ensures forall k | end < k < |s| :: IsSpace(s[k])
  {
    end := |s| - 1;
    while end > start && IsSpace(s[end])
      invariant start <= end < |s|
      invariant forall k | end < k < |s| :: IsSpace(s[k])
    {
      end := end - 1;
    }
  }

  lemma {:induction false} SpanIsLeadingSpaces(s: string, n: nat)
    requires n <= |s|
    requires forall k | 0 <= k < n :: IsSpace(s[k])
    requires n == |s| || !IsSpace(s[n])
    ensures Span(s, Whitespace) == n
  {
    if n > 0 {
      WhitespaceIsSpace(s[0]);
      SpanIsLeadingSpaces(s[1..], n - 1);
    } else if s != [] {
      WhitespaceIsSpace(s[0]);
    }
  }

  lemma {:induction false} TrimRightIsLastNonSpace(t: string, n: nat)
    requires 0 < n <= |t|
    requires forall k | n <= k < |t| :: IsSpace(t[k])
    requires n == 1 || !IsSpace(t[n - 1])
    requires !IsSpace(t[0])
    ensures TrimRight(t) == t[..n]
    decreases |t|
  {
    if |t| > n {
      assert IsSpace(t[|t| - 1]);
      TrimRightIsLastNonSpace(t[..|t| - 1], n);
      assert t[..|t| - 1][..n] == t[..n];
    } else {
      assert t[..n] == t;
    }
  }

  /** is_empty_line (handle.c:88-91). */
  function IsEmptyLine(line: string): (r: bool)
    ensures r <==> forall c | c in line :: IsSpace(c)
  {
    |Trimmed(line)| == 0
  }

  /** One saved source line: the line_data record of globals.h:34-43. */
  datatype LineData = LineData(fileName: string, number: int, data: string)

  /** The list save_data_line appends to. */
  class LineList {
    var lines: seq<LineData>

    constructor ()
      ensures lines == []
    {
      lines := [];
    }

    /** save_data_line (handle.c:93-115): one record at the tail, earlier ones untouched. */
    method SaveDataLine(fileName: string, number: int, content: string)
      modifies this
      ensures lines == old(lines) + [LineData(fileName, number, content)]
    {
      lines := lines + [LineData(fileName, number, content)];
    }
  }
}
