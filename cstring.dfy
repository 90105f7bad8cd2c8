/** The C library text services the assembler leans on, stated over `string`
    (= seq<char>, a C string's content up to its terminator): the character
    classes of <ctype.h>, strtok, strcspn/strspn, strstr, the "%s" and "%d"
    conversions of sscanf/sprintf, atoi, and fgets splitting a file into lines. */
module CString {

  datatype Option<T> = None | Some(value: T)

  /** isspace in the C locale. */
  predicate IsSpace(c: char) {
    c == ' ' || c == '\t' || c == '\n' || c == '\U{B}' || c == '\U{C}' || c == '\r'
  }

  const Whitespace: set<char> := {' ', '\t', '\n', '\U{B}', '\U{C}', '\r'}

  lemma WhitespaceIsSpace(c: char)
    ensures c in Whitespace <==> IsSpace(c)
  {
  }

  predicate IsDigit(c: char) { '0' <= c <= '9' }

  predicate IsAlpha(c: char) { 'a' <= c <= 'z' || 'A' <= c <= 'Z' }

  predicate IsAlnum(c: char) { IsAlpha(c) || IsDigit(c) }

  function DigitValue(c: char): (d: nat)
    requires IsDigit(c)
    ensures d < 10
  {
    (c as int - '0' as int) as nat
  }

  function DigitChar(d: nat): (c: char)
    requires d < 10
    ensures IsDigit(c) && DigitValue(c) == d
  {
    ('0' as int + d) as char
  }

  /** strcspn: the length of the longest prefix of `s` holding no character of `stop`. */
  function CSpan(s: string, stop: set<char>): (k: nat)
    ensures k <= |s|
    ensures forall i | 0 <= i < k :: s[i] !in stop
    ensures k == |s| || s[k] in stop
  {
    if s == [] || s[0] in stop then 0 else 1 + CSpan(s[1..], stop)
  }

  /** strspn: the length of the longest prefix of `s` made only of characters of `accept`. */
  function Span(s: string, accept: set<char>): (k: nat)
    ensures k <= |s|
    ensures forall i | 0 <= i < k :: s[i] in accept
    ensures k == |s| || s[k] !in accept
  {
    if s == [] || s[0] !in accept then 0 else 1 + Span(s[1..], accept)
  }

  /** strchr: the index of the first `c` in `s`. */
  function IndexOf(s: string, c: char): (r: Option<nat>)
    ensures r.None? <==> c !in s
    ensures r.Some? ==> r.value < |s| && s[r.value] == c && c !in s[..r.value]
  {
    var k := CSpan(s, {c});
    assert c !in s[..k];
    if k == |s| then (assert s == s[..k]; None) else Some(k)
  }

  /** `sub` occurs in `s` at index `j`. */
  predicate OccursAt(s: string, sub: string, j: nat) {
    j + |sub| <= |s| && s[j..j + |sub|] == sub
  }

  /** strstr: the index of the first occurrence of `sub` in `s` at or after `from`. */
  function FindSub(s: string, sub: string, from: nat := 0): (r: Option<nat>)
    requires from <= |s|
    ensures r.Some? ==> from <= r.value && OccursAt(s, sub, r.value)
    ensures r.Some? ==> forall j | from <= j < r.value :: !OccursAt(s, sub, j)
    ensures r.None? ==> forall j | from <= j :: !OccursAt(s, sub, j)
    decreases |s| - from
  {
    if from + |sub| > |s| then None
    else if s[from..from + |sub|] == sub then Some(from)
    else if from == |s| then None
    else FindSub(s, sub, from + 1)
  }

  /** strtok: the non-empty runs of `s` between characters of `delims`, in order. */
  function Tokens(s: string, delims: set<char>): (r: seq<string>)
    ensures forall t | t in r :: t != [] && forall c | c in t :: c !in delims
    ensures (forall c | c in s :: c in delims) <==> r == []
    decreases |s|
  {
    if s == [] then []
    else if s[0] in delims then Tokens(s[1..], delims)
    else
      var k := CSpan(s, delims);
      [s[..k]] + Tokens(s[k..], delims)
  }

  /** A token equals the whole string when the string has no delimiter and is not empty. */
  lemma {:induction false} TokensOfPlain(s: string, delims: set<char>)
    requires s != [] && forall c | c in s :: c !in delims
    ensures Tokens(s, delims) == [s]
  {
    var k := CSpan(s, delims);
    assert k == |s|;
    assert s[..k] == s;
    assert s[k..] == [];
  }

  /** strtok returns a delimiter-free leading run as its first token and goes on after the delimiter. */
  lemma TokensCons(a: string, d: char, b: string, delims: set<char>)
    requires a != [] && (forall c | c in a :: c !in delims) && d in delims
    ensures Tokens(a + [d] + b, delims) == [a] + Tokens(b, delims)
  {
    var s := a + [d] + b;
    assert s[|a|] == d;
    assert forall i | 0 <= i < |a| :: s[i] == a[i] && s[i] in a;
    var k := CSpan(s, delims);
    assert k == |a|;
    assert s[..k] == a;
    assert s[k..] == [d] + b;
    assert ([d] + b)[1..] == b;
  }

  /** Two tokens exist: a non-delimiter, later a delimiter, later again a non-delimiter. */
  predicate TwoTokens(s: string, delims: set<char>) {
    exists i, j, k | 0 <= i < j < k < |s| :: s[i] !in delims && s[j] in delims && s[k] !in delims
  }

  lemma TwoTokensSkip(s: string, delims: set<char>)
    requires s != [] && s[0] in delims
    ensures TwoTokens(s, delims) <==> TwoTokens(s[1..], delims)
  {
    var t := s[1..];
    if TwoTokens(s, delims) {
      var i, j, k :| 0 <= i < j < k < |s| && s[i] !in delims && s[j] in delims && s[k] !in delims;
      assert t[i - 1] == s[i] && t[j - 1] == s[j] && t[k - 1] == s[k];
    }
    if TwoTokens(t, delims) {
      var i, j, k :| 0 <= i < j < k < |t| && t[i] !in delims && t[j] in delims && t[k] !in delims;
      assert s[i + 1] == t[i] && s[j + 1] == t[j] && s[k + 1] == t[k];
    }
  }

  lemma TwoTokensAfterFirst(s: string, delims: set<char>)
    requires s != [] && s[0] !in delims
    ensures TwoTokens(s, delims) <==> exists c | c in s[CSpan(s, delims)..] :: c !in delims
  {
    var k := CSpan(s, delims);
    var rest := s[k..];
    if TwoTokens(s, delims) {
      var i, j, m :| 0 <= i < j < m < |s| && s[i] !in delims && s[j] in delims && s[m] !in delims;
      assert j >= k;
      assert rest[m - k] == s[m];
      assert rest[m - k] in rest;
    }
    if exists c | c in rest :: c !in delims {
      var c :| c in rest && c !in delims;
      var m :| 0 <= m < |rest| && rest[m] == c;
      assert s[k + m] == c;
      assert rest[0] == s[k];
      assert 0 < k + m;
    }
  }

  /** strtok finds a second token exactly when some delimiter separates two non-delimiters. */
  lemma {:induction false} TokensTwoOrMore(s: string, delims: set<char>)
    ensures |Tokens(s, delims)| >= 2 <==> TwoTokens(s, delims)
    decreases |s|
  {
    if s == [] {
    } else if s[0] in delims {
      TokensTwoOrMore(s[1..], delims);
      TwoTokensSkip(s, delims);
    } else {
      TwoTokensAfterFirst(s, delims);
    }
  }

  /** The tokens that sscanf's "%s" conversions read, one after another. */
  function Words(s: string): seq<string> { Tokens(s, Whitespace) }

  /** The k-th "%s" conversion of sscanf, or "" when the input ran out first
      (the caller's buffers are cleared before every scan). */
  function Word(s: string, k: nat): (w: string)
    ensures w == [] || w in Words(s)
  {
    if k < |Words(s)| then Words(s)[k] else []
  }

  /** What is left after skipping blanks and then one "%s" token. */
  function AfterWord(s: string): (r: string)
    ensures |r| <= |s|
  {
    var t := s[Span(s, Whitespace)..];
    t[CSpan(t, Whitespace)..]
  }

  /** sscanf(s, " %s %s %[^\n]", ...): the third target, i.e. the text after two
      words and the blanks that follow them, up to the newline ("" if none). */
  function RestAfterTwoWords(s: string): (r: string)
    ensures '\n' !in r
    ensures r == [] || !IsSpace(r[0])
  {
    var t := AfterWord(AfterWord(s));
    var u := t[Span(t, Whitespace)..];
    u[..CSpan(u, {'\n'})]
  }

  /** The value of a run of decimal digits, most significant first. */
  function DigitsValue(ds: string): (v: nat)
    requires forall c | c in ds :: IsDigit(c)
  {
    if ds == [] then 0 else 10 * DigitsValue(ds[..|ds| - 1]) + DigitValue(ds[|ds| - 1])
  }

  const Digits: set<char> := {'0', '1', '2', '3', '4', '5', '6', '7', '8', '9'}

  lemma DigitsAreDigits(c: char)
    ensures c in Digits <==> IsDigit(c)
  {
  }

  /** The value atoi gives the text after an optional sign: the leading digits. */
  function LeadingDigitsValue(s: string): nat
  {
    var k := Span(s, Digits);
    forall c | c in s[..k] ensures IsDigit(c) { DigitsAreDigits(c); }
    DigitsValue(s[..k])
  }

  /** atoi without overflow: leading white space, an optional sign, then digits. */
  function Atoi(s: string): int
  {
    var t := s[Span(s, Whitespace)..];
    if t != [] && t[0] == '-' then -(LeadingDigitsValue(t[1..]) as int)
    else if t != [] && t[0] == '+' then LeadingDigitsValue(t[1..])
    else LeadingDigitsValue(t)
  }

  /** sprintf("%d") of a non-negative number. */
  function NatToString(n: nat): (s: string)
    ensures s != [] && forall c | c in s :: IsDigit(c)
  {
    if n < 10 then [DigitChar(n)] else NatToString(n / 10) + [DigitChar(n % 10)]
  }

  /** sprintf("%d"). */
  function IntToString(n: int): (s: string)
    ensures s != [] && ',' !in s
    ensures forall c | c in s :: c == '-' || IsDigit(c)
  {
    if n < 0 then "-" + NatToString(-n) else NatToString(n)
  }

  lemma {:induction false} NatToStringValue(n: nat)
    ensures DigitsValue(NatToString(n)) == n
  {
    if n >= 10 {
      var s := NatToString(n / 10) + [DigitChar(n % 10)];
      assert s[..|s| - 1] == NatToString(n / 10);
      NatToStringValue(n / 10);
    }
  }

  lemma LeadingDigitsOfDigits(s: string)
    requires forall c | c in s :: IsDigit(c)
    ensures LeadingDigitsValue(s) == DigitsValue(s)
  {
    var k := Span(s, Digits);
    if k < |s| {
      DigitsAreDigits(s[k]);
    }
    assert s[..k] == s;
  }

  /** atoi reads back what sprintf("%d") wrote. */
  lemma AtoiIntToString(n: int)
    ensures Atoi(IntToString(n)) == n
  {
    var s := IntToString(n);
    if n >= 0 {
      assert s[0] in NatToString(n);
    }
    assert s[0] !in Whitespace;
    assert Span(s, Whitespace) == 0;
    assert s[0..] == s;
    if n < 0 {
      assert s[1..] == NatToString(-n);
      LeadingDigitsOfDigits(NatToString(-n));
      NatToStringValue(-n);
    } else {
      LeadingDigitsOfDigits(NatToString(n));
      NatToStringValue(n);
    }
  }

  /** The number of occurrences of `c` in `s`. */
  function Count(s: string, c: char): (n: nat)
    ensures n <= |s|
    ensures n == 0 <==> c !in s
  {
    if s == [] then 0 else (if s[0] == c then 1 else 0) + Count(s[1..], c)
  }

  lemma {:induction false} CountConcat(a: string, b: string, c: char)
    ensures Count(a + b, c) == Count(a, c) + Count(b, c)
  {
    if a != [] {
      assert (a + b)[1..] == a[1..] + b;
      CountConcat(a[1..], b, c);
    } else {
      assert a + b == b;
    }
  }

  /** The concatenation of the strings written one after another to a file. */
  function Concat(ls: seq<string>): string
  {
    if ls == [] then [] else ls[0] + Concat(ls[1..])
  }

  lemma ConcatCons(l: string, ls: seq<string>)
    ensures Concat([l] + ls) == l + Concat(ls)
  {
    assert ([l] + ls)[1..] == ls;
  }

  lemma {:induction false} ConcatAppend(ls: seq<string>, l: string)
    ensures Concat(ls + [l]) == Concat(ls) + l
  {
    if ls != [] {
      assert (ls + [l])[1..] == ls[1..] + [l];
      ConcatAppend(ls[1..], l);
    } else {
      assert [l][1..] == [];
    }
  }

  /** The length of the piece one fgets(buf, size, f) call takes from `text`:
      up to and including the first newline, but at most size - 1 characters. */
  function LineLength(text: string, size: nat): (k: nat)
    requires size >= 2 && text != []
    ensures 0 < k <= |text| && k < size
    ensures '\n' !in text[..k - 1]
    ensures k == |text| || k == size - 1 || text[k - 1] == '\n'
  {
    var j := CSpan(text, {'\n'});
    assert text[..j] == text[..j];
    var full := if j < |text| then j + 1 else |text|;
    if full <= size - 1 then full else size - 1
  }

  /** The lines repeated fgets(buf, size, f) calls return until end of file. */
  function ReadLines(text: string, size: nat): (r: seq<string>)
    requires size >= 2
    ensures forall l | l in r :: 0 < |l| < size
    decreases |text|
  {
    if text == [] then []
    else
      var k := LineLength(text, size);
      [text[..k]] + ReadLines(text[k..], size)
  }

  /** Reading a file line by line loses and adds nothing. */
  lemma {:induction false} ReadLinesConcat(text: string, size: nat)
    requires size >= 2
    ensures Concat(ReadLines(text, size)) == text
    decreases |text|
  {
    if text != [] {
      var k := LineLength(text, size);
      var rest := ReadLines(text[k..], size);
      assert ReadLines(text, size) == [text[..k]] + rest;
      ReadLinesConcat(text[k..], size);
      ConcatCons(text[..k], rest);
      TakeDrop(text, k);
    }
  }

  lemma TakeDrop<T>(s: seq<T>, k: nat)
    requires k <= |s|
    ensures s[..k] + s[k..] == s
  {
  }

  lemma ConsFour<T>(a: T, b: T, c: T, d: T)
    ensures [a] + ([b] + [c, d]) == [a, b, c, d]
  {
  }

  lemma ConcatAssoc<T>(a: seq<T>, b: seq<T>, c: seq<T>)
    ensures a + b + c == a + (b + c)
  {
  }
}
