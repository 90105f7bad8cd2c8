/** The encoders of first_pass_help.c: bit strings of a fixed width, most
    significant bit first, for operand fields, one-hot addressing-mode fields,
    whole instruction words, and the value of a bit string that the object
    file prints in octal. */
module Encode {
  import opened CString

  function Pow2(n: nat): (p: nat)
    ensures p >= 1
  {
    if n == 0 then 1 else 2 * Pow2(n - 1)
  }

  predicate IsBits(s: string) {
    forall c | c in s :: c == '0' || c == '1'
  }

  function BitChar(b: bool): char {
    if b then '1' else '0'
  }

  /** `n` zero characters, what memset(binary, '0', n) writes. */
  function Zeros(n: nat): (r: string)
    ensures |r| == n && forall c | c in r :: c == '0'
  {
    seq(n, _ => '0')
  }

  /** The unsigned value of a bit string read as binaryToOctal reads it: every
      '1' adds the power of two of its place, counted from the end. */
  function BinaryValue(s: string): (v: nat)
    ensures v < Pow2(|s|)
  {
    if s == [] then 0 else (if s[0] == '1' then Pow2(|s| - 1) else 0) + BinaryValue(s[1..])
  }

  lemma {:induction false} BinaryValueAppend(a: string, c: char)
    ensures BinaryValue(a + [c]) == 2 * BinaryValue(a) + (if c == '1' then 1 else 0)
    decreases |a|
  {
    if a == [] {
      assert [c][1..] == [];
    } else {
      assert (a + [c])[1..] == a[1..] + [c];
      BinaryValueAppend(a[1..], c);
    }
  }

  /** The low `n` bits of `v` in two's complement, most significant first. */
  function Field(n: nat, v: int): (r: string)
    ensures |r| == n && IsBits(r)
  {
    if n == 0 then [] else Field(n - 1, v / 2) + [BitChar(v % 2 == 1)]
  }

  lemma {:induction false} MulAtLeast(d: int, x: int)
    requires d > 0 && x >= 1
    ensures d * x >= d
    decreases x
  {
    if x > 1 {
      MulAtLeast(d, x - 1);
      assert d * x == d * (x - 1) + d;
    }
  }

  lemma DivModUnique(v: int, d: int, q: int, r: int)
    requires d > 0 && 0 <= r < d && v == d * q + r
    ensures v / d == q && v % d == r
  {
    var q', r' := v / d, v % d;
    assert v == d * q' + r';
    assert d * (q - q') == r' - r;
    if q > q' {
      MulAtLeast(d, q - q');
    } else if q < q' {
      MulAtLeast(d, q' - q);
    }
  }

  /** A field holds its value modulo 2 to the width: the low bits, nothing else. */
  lemma {:induction false} FieldValue(n: nat, v: int)
    ensures BinaryValue(Field(n, v)) == v % Pow2(n)
  {
    if n > 0 {
      FieldValue(n - 1, v / 2);
      BinaryValueAppend(Field(n - 1, v / 2), BitChar(v % 2 == 1));
      HalfMod(v, Pow2(n - 1));
    }
  }

  lemma HalfMod(v: int, p: int)
    requires p >= 1
    ensures 2 * ((v / 2) % p) + v % 2 == v % (2 * p)
  {
    var a, b := (v / 2) / p, (v / 2) % p;
    assert v / 2 == p * a + b;
    assert v == 2 * (v / 2) + v % 2;
    assert 2 * (p * a) == (2 * p) * a;
    assert v == (2 * p) * a + (2 * b + v % 2);
    DivModUnique(v, 2 * p, a, 2 * b + v % 2);
  }

  /** A bit string is the field of its own value: fields are the only bit strings. */
  lemma {:induction false} BitsAreField(s: string)
    requires IsBits(s)
    ensures s == Field(|s|, BinaryValue(s))
    decreases |s|
  {
    if s != [] {
      var p, c := s[..|s| - 1], s[|s| - 1];
      assert s == p + [c];
      assert IsBits(p) by {
        forall x | x in p ensures x == '0' || x == '1' { assert x in s; }
      }
      assert c in s;
      BinaryValueAppend(p, c);
      BitsAreField(p);
      var v := BinaryValue(s);
      assert v / 2 == BinaryValue(p) && v % 2 == (if c == '1' then 1 else 0);
    }
  }

  /** Two values with the same residue have the same field. */
  lemma FieldMod(n: nat, v: int, w: int)
    requires v % Pow2(n) == w % Pow2(n)
    ensures Field(n, v) == Field(n, w)
  {
    FieldValue(n, v);
    FieldValue(n, w);
    BitsAreField(Field(n, v));
    BitsAreField(Field(n, w));
  }

  /** The bits a value-halving loop writes, least significant first, until the value is 0. */
  function LsbBits(m: nat): (r: string)
    ensures IsBits(r)
  {
    if m == 0 then [] else [BitChar(m % 2 == 1)] + LsbBits(m / 2)
  }

  lemma {:induction false} LsbBitsLength(m: nat, n: nat)
    requires m < Pow2(n)
    ensures |LsbBits(m)| <= n
  {
    if m > 0 {
      LsbBitsLength(m / 2, n - 1);
    }
  }

  function Reverse(s: string): (r: string)
    ensures |r| == |s|
    ensures forall i | 0 <= i < |s| :: r[i] == s[|s| - 1 - i]
  {
    if s == [] then [] else Reverse(s[1..]) + [s[0]]
  }

  /** A non-negative value's field is zero padding followed by its binary digits. */
  lemma {:induction false} FieldOfNat(n: nat, m: nat)
    requires m < Pow2(n)
    ensures |LsbBits(m)| <= n
    ensures Field(n, m) == Zeros(n - |LsbBits(m)|) + Reverse(LsbBits(m))
  {
    LsbBitsLength(m, n);
    if n > 0 {
      FieldOfNat(n - 1, m / 2);
      if m == 0 {
        assert Zeros(n - 1) + ['0'] == Zeros(n);
      } else {
        var l := LsbBits(m);
        assert l[1..] == LsbBits(m / 2);
        assert Reverse(l) == Reverse(LsbBits(m / 2)) + [BitChar(m % 2 == 1)];
      }
    }
  }

  /** Every character flipped, as the inversion loop of decimal_to_binary does. */
  function Complement(s: string): (r: string)
    ensures |r| == |s|
  {
    seq(|s|, i requires 0 <= i < |s| => if s[i] == '0' then '1' else '0')
  }

  lemma ComplementAppend(a: string, c: char)
    ensures Complement(a + [c]) == Complement(a) + [if c == '0' then '1' else '0']
  {
    var l, r := Complement(a + [c]), Complement(a) + [if c == '0' then '1' else '0'];
    forall i | 0 <= i < |l| ensures l[i] == r[i] {
      if i < |a| {
        assert (a + [c])[i] == a[i];
      }
    }
  }

  /** The last character of a field is the parity bit of the value. */
  lemma FieldLast(n: nat, v: int)
    requires n > 0
    ensures Field(n, v) == Field(n - 1, v / 2) + [BitChar(v % 2 == 1)]
  {
  }

  /** Inverting the bits of a field gives the field of -v-1. */
  lemma {:induction false} ComplementField(n: nat, v: int)
    ensures Complement(Field(n, v)) == Field(n, -v - 1)
  {
    if n > 0 {
      ComplementStep(n, v);
      ComplementField(n - 1, v / 2);
      NegatedStep(n, v);
    }
  }

  /** Inverting a field inverts its prefix and its parity bit. */
  lemma ComplementStep(n: nat, v: int)
    requires n > 0
    ensures Complement(Field(n, v)) == Complement(Field(n - 1, v / 2)) + [BitChar(v % 2 != 1)]
  {
    FieldLast(n, v);
    ComplementAppend(Field(n - 1, v / 2), BitChar(v % 2 == 1));
  }

  /** The field of -v-1 has the prefix of -(v/2)-1 and the opposite parity bit of v. */
  lemma NegatedStep(n: nat, v: int)
    requires n > 0
    ensures Field(n, -v - 1) == Field(n - 1, -(v / 2) - 1) + [BitChar(v % 2 != 1)]
  {
    var w := -v - 1;
    DivModUnique(w, 2, -(v / 2) - 1, 1 - v % 2);
    FieldLast(n, w);
  }

  /** Adding one to a bit string: from the end, every character other than '0' becomes '0' until the first '0', which becomes '1'. */
  function Increment(s: string): (r: string)
    ensures |r| == |s|
  {
    if s == [] then []
    else if s[|s| - 1] == '0' then s[..|s| - 1] + ['1']
    else Increment(s[..|s| - 1]) + ['0']
  }

  /** Incrementing a field gives the field of v+1. */
  lemma {:induction false} IncrementField(n: nat, v: int)
    ensures Increment(Field(n, v)) == Field(n, v + 1)
  {
    if n > 0 {
      var f := Field(n, v);
      assert f[..|f| - 1] == Field(n - 1, v / 2);
      if v % 2 == 0 {
        DivModUnique(v + 1, 2, v / 2, 1);
      } else {
        DivModUnique(v + 1, 2, v / 2 + 1, 0);
        IncrementField(n - 1, v / 2);
      }
    }
  }

  /** The halving loop and the zero padding of decimal_to_binary: the low
      bits of `m`, least significant first, then '0' up to the end of `b`. */
  method WriteLsbFirst(b: array<char>, m: nat)
    requires m < Pow2(b.Length)
    modifies b
    ensures |LsbBits(m)| <= b.Length
    ensures b[..] == LsbBits(m) + Zeros(b.Length - |LsbBits(m)|)
  {
    LsbBitsLength(m, b.Length);
    ghost var bits := LsbBits(m);
    var d := m;
    var i := 0;
    while d > 0
      invariant i <= |bits| && bits[i..] == LsbBits(d)
      invariant forall k | 0 <= k < i :: b[k] == bits[k]
      decreases d
    {
      assert LsbBits(d) == [BitChar(d % 2 == 1)] + LsbBits(d / 2);
      assert bits[i] == bits[i..][0];
      assert bits[i + 1..] == bits[i..][1..];
      b[i] := BitChar(d % 2 == 1);
      d := d / 2;
      i := i + 1;
    }
    while i < b.Length
      invariant |bits| <= i <= b.Length
      invariant forall k | 0 <= k < |bits| :: b[k] == bits[k]
      invariant forall k | |bits| <= k < i :: b[k] == '0'
    {
      b[i] := '0';
      i := i + 1;
    }
    LsbThenZeros(b[..], bits);
  }

  /** A buffer holding `bits` and then only '0' is `bits` padded with zeros. */
  lemma LsbThenZeros(s: string, bits: string)
    requires |bits| <= |s|
    requires forall k | 0 <= k < |bits| :: s[k] == bits[k]
    requires forall k | |bits| <= k < |s| :: s[k] == '0'
    ensures s == bits + Zeros(|s| - |bits|)
  {
    var t := bits + Zeros(|s| - |bits|);
    forall k | 0 <= k < |s| ensures s[k] == t[k] {
      if k >= |bits| {
        assert t[k] == Zeros(|s| - |bits|)[k - |bits|];
        assert t[k] in Zeros(|s| - |bits|);
      }
    }
  }

  /** The in-place reversal of decimal_to_binary: swap the ends towards the middle. */
  method ReverseInPlace(b: array<char>)
    modifies b
    ensures b[..] == Reverse(old(b[..]))
  {
    ghost var filled := b[..];
    var i := 0;
    while i < b.Length / 2
      invariant i <= b.Length / 2
      invariant forall k | 0 <= k < i :: b[k] == filled[b.Length - 1 - k] && b[b.Length - 1 - k] == filled[k]
      invariant forall k | i <= k < b.Length - i :: b[k] == filled[k]
    {
      b[i], b[b.Length - i - 1] := b[b.Length - i - 1], b[i];
      i := i + 1;
    }
  }

  /** The inversion loop of decimal_to_binary for a negative number. */
  method InvertInPlace(b: array<char>)
    modifies b
    ensures forall k | 0 <= k < b.Length :: b[k] == if old(b[k]) == '0' then '1' else '0'
    ensures b[..] == Complement(old(b[..]))
  {
    ghost var positive := b[..];
    var i := 0;
    while i < b.Length
      invariant i <= b.Length
      invariant forall k | 0 <= k < i :: b[k] == if positive[k] == '0' then '1' else '0'
      invariant forall k | i <= k < b.Length :: b[k] == positive[k]
    {
      b[i] := if b[i] == '0' then '1' else '0';
      i := i + 1;
    }
  }

  /** The add-one loop of decimal_to_binary: from the end, characters become
      '0' until the first '0', which becomes '1' and stops the loop. */
  method IncrementInPlace(b: array<char>)
    modifies b
    ensures b[..] == Increment(old(b[..]))
  {
    ghost var inverted := b[..];
    var j := b.Length - 1;
    assert inverted[..j + 1] == inverted;
    while j >= 0 && b[j] != '0'
      invariant -1 <= j < b.Length
      invariant b[..j + 1] == inverted[..j + 1]
      invariant forall k | j < k < b.Length :: b[k] == '0'
      invariant Increment(inverted) == Increment(inverted[..j + 1]) + Zeros(b.Length - 1 - j)
    {
      assert inverted[..j + 1][..j] == inverted[..j];
      assert Zeros(b.Length - j) == ['0'] + Zeros(b.Length - 1 - j);
      b[j] := '0';
      j := j - 1;
    }
    if j >= 0 {
      assert inverted[..j + 1][..j] == inverted[..j];
      b[j] := '1';
      assert b[..] == b[..j + 1] + b[j + 1..];
    } else {
      assert b[..] == b[j + 1..];
    }
  }

  /** The positive field of `m` in `b`: bits written least significant
      first, padded, then reversed. */
  method WritePositive(b: array<char>, m: nat)
    requires m < Pow2(b.Length)
    modifies b
    ensures b[..] == Field(b.Length, m)
  {
    WriteLsbFirst(b, m);
    ghost var l := LsbBits(m);
    ghost var z := Zeros(b.Length - |l|);
    ReverseInPlace(b);
    ReverseConcat(l, z);
    assert Reverse(z) == z by { ReverseZeros(b.Length - |l|); }
    FieldOfNat(b.Length, m);
  }

  lemma ReverseConcat(a: string, b: string)
    ensures Reverse(a + b) == Reverse(b) + Reverse(a)
  {
    var r, t := Reverse(a + b), Reverse(b) + Reverse(a);
    assert |r| == |t|;
    forall i | 0 <= i < |r|
      ensures r[i] == t[i]
    {
      if i < |b| {
        assert t[i] == Reverse(b)[i];
      } else {
        assert t[i] == Reverse(a)[i - |b|];
      }
    }
  }

  lemma ReverseZeros(n: nat)
    ensures Reverse(Zeros(n)) == Zeros(n)
  {
    var r := Reverse(Zeros(n));
    assert forall i | 0 <= i < n :: r[i] == Zeros(n)[n - 1 - i] == '0';
  }

  /** Two's complement negation of a field held in `b`: invert, then add one. */
  method NegateInPlace(b: array<char>, m: int)
    requires b[..] == Field(b.Length, m)
    modifies b
    ensures b[..] == Field(b.Length, -m)
  {
    InvertInPlace(b);
    ComplementField(b.Length, m);
    assert b[..] == Field(b.Length, -m - 1);
    IncrementInPlace(b);
    IncrementField(b.Length, -m - 1);
    assert -m - 1 + 1 == -m;
  }

  /** decimal_to_binary (first_pass_help.c:308-367): the halving loop writes
      the bits least significant first, the rest is padded with '0', the array
      is reversed in place, and a negative number is inverted and incremented. */
  method DecimalToBinary(length: nat, decimal: int) returns (binary: string)
    requires -(Pow2(length) as int) < decimal < Pow2(length)
    ensures binary == Field(length, decimal)
  {
    var m: nat := if decimal < 0 then -decimal else decimal;
    var isNegative := decimal < 0;
    if m == 0 {
      FieldOfNat(length, 0);
      return Zeros(length);
    }
    var b := new char[length];
    WritePositive(b, m);
    if isNegative {
      NegateInPlace(b, m);
    }
    binary := b[..];
  }

  /** convert_to_binary (first_pass_help.c:369-378): `length` zeros with a '1'
      at place `decimal` from the end, or all zeros when the mode is out of range. */
  function ConvertToBinary(length: nat, decimal: int): (r: string)
    ensures |r| == length && IsBits(r)
    ensures BinaryValue(r) == if 0 <= decimal < length then Pow2(decimal) else 0
  {
    if 0 <= decimal < length then
      var r := Zeros(length)[length - decimal - 1 := '1'];
      OneHotValue(length, decimal, r);
      r
    else
      ZerosValue(length);
      Zeros(length)
  }

  lemma {:induction false} ZerosValue(n: nat)
    ensures BinaryValue(Zeros(n)) == 0
  {
    if n > 0 {
      assert Zeros(n)[1..] == Zeros(n - 1);
      ZerosValue(n - 1);
    }
  }

  lemma {:induction false} OneHotValue(length: nat, decimal: nat, r: string)
    requires decimal < length && r == Zeros(length)[length - decimal - 1 := '1']
    ensures IsBits(r) && BinaryValue(r) == Pow2(decimal)
    decreases length
  {
    if decimal == length - 1 {
      assert r[1..] == Zeros(length - 1);
      ZerosValue(length - 1);
    } else {
      assert r[1..] == Zeros(length - 1)[length - 1 - decimal - 1 := '1'];
      OneHotValue(length - 1, decimal, r[1..]);
    }
  }

  /** The operand fields convert_str_to_binary concatenates for the tokens `toks`. */
  function Fields(length: nat, toks: seq<string>): (r: string)
    ensures |r| == length * |toks|
  {
    if toks == [] then [] else Fields(length, toks[..|toks| - 1]) + Field(length, Atoi(toks[|toks| - 1]))
  }

  lemma FieldsSnoc(length: nat, toks: seq<string>, i: nat)
    requires i < |toks|
    ensures Fields(length, toks[..i + 1]) == Fields(length, toks[..i]) + Field(length, Atoi(toks[i]))
  {
    assert toks[..i + 1][..i] == toks[..i];
  }

  /** What convert_str_to_binary leaves in its buffer: a label ("") or an
      absent word ("NULL") unchanged, otherwise one field per comma-separated
      number followed by the A,R,E bits. */
  function StrToBinary(length: nat, s: string, are: string): string
  {
    if s == [] || s == "NULL" then s else Fields(length, Tokens(s, {','})) + are
  }

  /** Every number in the descriptor fits the field width. */
  predicate TokensFit(length: nat, s: string) {
    forall t | t in Tokens(s, {','}) :: -(Pow2(length) as int) < Atoi(t) < Pow2(length)
  }

  /** convert_str_to_binary (first_pass_help.c:261-281). */
  method ConvertStrToBinary(length: nat, s: string, are: string) returns (r: string)
    requires TokensFit(length, s)
    ensures r == StrToBinary(length, s, are)
  {
    if s == [] || s == "NULL" {
      return s;
    }
    var tokens := Tokens(s, {','});
    var result := "";
    var i := 0;
    while i < |tokens|
      invariant i <= |tokens|
      invariant result == Fields(length, tokens[..i])
    {
      FieldsSnoc(length, tokens, i);
      assert tokens[i] in tokens;
      var binary := DecimalToBinary(length, Atoi(tokens[i]));
      result := result + binary;
      i := i + 1;
    }
    assert tokens[..i] == tokens;
    r := result + are;
  }

  /** The fields convert_first_word_to_binary concatenates: the first
      non-negative number as a binary field, every other number one-hot. */
  function FirstWordFields(length: nat, toks: seq<string>, first: bool): string
  {
    if toks == [] then []
    else
      var num := Atoi(toks[0]);
      if first && num >= 0 then Field(length, num) + FirstWordFields(length, toks[1..], false)
      else ConvertToBinary(length, num) + FirstWordFields(length, toks[1..], first)
  }

  function FirstWordToBinary(length: nat, s: string, are: string): string {
    FirstWordFields(length, Tokens(s, {','}), true) + are
  }

  lemma FirstWordFieldsStep(length: nat, toks: seq<string>, i: nat, first: bool)
    requires i < |toks|
    ensures FirstWordFields(length, toks[i..], first)
              == if first && Atoi(toks[i]) >= 0
                 then Field(length, Atoi(toks[i])) + FirstWordFields(length, toks[i + 1..], false)
                 else ConvertToBinary(length, Atoi(toks[i])) + FirstWordFields(length, toks[i + 1..], first)
  {
    assert toks[i..][0] == toks[i];
    assert toks[i..][1..] == toks[i + 1..];
  }

  /** Every number among the tokens is below 2 to the width. */
  predicate BelowWidth(length: nat, toks: seq<string>) {
    forall t | t in toks :: Atoi(t) < Pow2(length)
  }

  /** One round of the token loop of convert_first_word_to_binary
      (first_pass_help.c:293-299): the field of token `i`, and whether the
      next non-negative number is still the first. */
  method FirstWordToken(length: nat, tokens: seq<string>, i: nat, first: bool) returns (binary: string, first': bool)
    requires i < |tokens| && BelowWidth(length, tokens)
    ensures FirstWordFields(length, tokens[i..], first) == binary + FirstWordFields(length, tokens[i + 1..], first')
  {
    FirstWordFieldsStep(length, tokens, i, first);
    assert tokens[i] in tokens;
    var num := Atoi(tokens[i]);
    first' := first;
    if first && num >= 0 {
      binary := DecimalToBinary(length, num);
      first' := false;
    } else {
      binary := ConvertToBinary(length, num);
    }
  }

  /** The token loop of convert_first_word_to_binary. */
  method FirstWordLoop(length: nat, tokens: seq<string>) returns (result: string)
    requires BelowWidth(length, tokens)
    ensures result == FirstWordFields(length, tokens, true)
  {
    var first := true;
    result := "";
    var i := 0;
    while i < |tokens|
      invariant i <= |tokens|
      invariant result + FirstWordFields(length, tokens[i..], first) == FirstWordFields(length, tokens, true)
    {
      var binary, first' := FirstWordToken(length, tokens, i, first);
      ConcatAssoc(result, binary, FirstWordFields(length, tokens[i + 1..], first'));
      result := result + binary;
      first := first';
      i := i + 1;
    }
    assert tokens[i..] == [];
  }

  /** convert_first_word_to_binary (first_pass_help.c:284-306). Non-negative
      numbers must fit the width, which covers the first one converted in binary. */
  method ConvertFirstWordToBinary(length: nat, s: string, are: string) returns (r: string)
    requires BelowWidth(length, Tokens(s, {','}))
    ensures r == FirstWordToBinary(length, s, are)
  {
    var fields := FirstWordLoop(length, Tokens(s, {','}));
    r := fields + are;
  }

  /** The descriptor text "a,b,c" of three numbers. */
  function Join3(a: int, b: int, c: int): string {
    IntToString(a) + "," + IntToString(b) + "," + IntToString(c)
  }

  lemma TokensOfJoin3(a: int, b: int, c: int)
    ensures Tokens(Join3(a, b, c), {','}) == [IntToString(a), IntToString(b), IntToString(c)]
  {
    var sa, sb, sc := IntToString(a), IntToString(b), IntToString(c);
    assert Join3(a, b, c) == sa + [','] + (sb + [','] + sc);
    TokensCons(sa, ',', sb + [','] + sc, {','});
    TokensCons(sb, ',', sc, {','});
    TokensOfPlain(sc, {','});
  }

  lemma FirstWordOfThree(x: string, y: string, z: string)
    requires 0 <= Atoi(x) < 16 && Atoi(y) < 16 && Atoi(z) < 16
    ensures FirstWordFields(4, [x, y, z], true)
              == Field(4, Atoi(x)) + ConvertToBinary(4, Atoi(y)) + ConvertToBinary(4, Atoi(z))
  {
    var toks := [x, y, z];
    assert toks[1..] == [y, z];
    assert toks[1..][1..] == [z];
    assert [z][1..] == [];
    assert FirstWordFields(4, [z], false) == ConvertToBinary(4, Atoi(z));
    assert FirstWordFields(4, [y, z], false) == ConvertToBinary(4, Atoi(y)) + ConvertToBinary(4, Atoi(z));
  }

  /** The first instruction word: the 4-bit opcode, the one-hot source mode,
      the one-hot target mode (an absent operand gives "0000") and the A,R,E
      bits "100", fifteen characters in all. */
  lemma FirstWordLayout(op: int, src: int, tgt: int)
    requires 0 <= op < 16 && src < 16 && tgt < 16
    ensures FirstWordToBinary(4, Join3(op, src, tgt), "100")
              == Field(4, op) + ConvertToBinary(4, src) + ConvertToBinary(4, tgt) + "100"
    ensures |FirstWordToBinary(4, Join3(op, src, tgt), "100")| == 15
  {
    TokensOfJoin3(op, src, tgt);
    AtoiIntToString(op);
    AtoiIntToString(src);
    AtoiIntToString(tgt);
    FirstWordOfThree(IntToString(op), IntToString(src), IntToString(tgt));
  }

  /** A word converted from one number: an immediate operand ("100") or a
      label address patched in by the second pass ("010", "001") is the
      12-bit field of the number followed by its A,R,E bits. */
  lemma NumberWordLayout(n: int, are: string)
    ensures StrToBinary(12, IntToString(n), are) == Field(12, n) + are
  {
    NotNullText(n);
    TokensOfPlain(IntToString(n), {','});
    AtoiIntToString(n);
    assert [IntToString(n)][..0] == [];
  }

  lemma NotNullText(n: int)
    ensures IntToString(n) != "NULL"
  {
    assert "NULL"[0] !in IntToString(n);
  }

  /** The text "0,0,a,b" that packs two 3-bit register fields. */
  function RegisterText(a: int, b: int): string {
    "0,0," + IntToString(a) + "," + IntToString(b)
  }

  lemma TokensOfRegisterText(a: int, b: int)
    ensures Tokens(RegisterText(a, b), {','}) == ["0", "0", IntToString(a), IntToString(b)]
  {
    var sa, sb := IntToString(a), IntToString(b);
    var t3 := sa + [','] + sb;
    var t2 := "0" + [','] + t3;
    RegisterTextShape(a, b);
    TokensOfNumbers(a, b);
    TokensAfterZero(t3);
    TokensAfterZero(t2);
    ConsFour("0", "0", sa, sb);
  }

  /** "a,b" for two numbers is the two tokens a and b. */
  lemma TokensOfNumbers(a: int, b: int)
    ensures Tokens(IntToString(a) + [','] + IntToString(b), {','}) == [IntToString(a), IntToString(b)]
  {
    TokensOfPlain(IntToString(b), {','});
    TokensCons(IntToString(a), ',', IntToString(b), {','});
  }

  lemma RegisterTextShape(a: int, b: int)
    ensures RegisterText(a, b) == "0" + [','] + ("0" + [','] + (IntToString(a) + [','] + IntToString(b)))
  {
  }

  /** A leading "0," is one token. */
  lemma TokensAfterZero(t: string)
    ensures Tokens("0" + [','] + t, {','}) == ["0"] + Tokens(t, {','})
  {
    TokensCons("0", ',', t, {','});
  }

  lemma FieldsOfFour(n: nat, w: string, x: string, y: string, z: string)
    ensures Fields(n, [w, x, y, z])
              == Field(n, Atoi(w)) + Field(n, Atoi(x)) + Field(n, Atoi(y)) + Field(n, Atoi(z))
  {
    var toks := [w, x, y, z];
    assert toks[..3] == [w, x, y];
    assert Fields(n, toks) == Fields(n, [w, x, y]) + Field(n, Atoi(z));
    assert [w, x, y][..2] == [w, x];
    assert Fields(n, [w, x, y]) == Fields(n, [w, x]) + Field(n, Atoi(y));
    assert [w, x][..1] == [w];
    assert Fields(n, [w, x]) == Fields(n, [w]) + Field(n, Atoi(x));
    assert [w][..0] == [];
    assert Fields(n, [w]) == Field(n, Atoi(w));
  }

  /** A register word: four 3-bit fields, the registers in the last two, then "100". */
  lemma RegisterWordLayout(a: int, b: int)
    requires 0 <= a < 8 && 0 <= b < 8
    ensures StrToBinary(3, RegisterText(a, b), "100") == "000000" + Field(3, a) + Field(3, b) + "100"
    ensures |StrToBinary(3, RegisterText(a, b), "100")| == 15
  {
    var s := RegisterText(a, b);
    assert s != "NULL" by { assert s[0] == '0'; }
    var fa, fb := Field(3, a), Field(3, b);
    assert Fields(3, Tokens(s, {','})) == Zeros(3) + Zeros(3) + fa + fb by {
      TokensOfRegisterText(a, b);
      FieldsOfFour(3, "0", "0", IntToString(a), IntToString(b));
      AtoiIntToString(a);
      AtoiIntToString(b);
      AtoiZero();
      ZeroField(3);
    }
    assert Zeros(3) + Zeros(3) == "000000";
    assert StrToBinary(3, s, "100") == Zeros(3) + Zeros(3) + fa + fb + "100";
  }

  lemma AtoiZero()
    ensures Atoi("0") == 0
  {
    AtoiIntToString(0);
    assert IntToString(0) == "0";
  }

  lemma {:induction false} ZeroField(n: nat)
    ensures Field(n, 0) == Zeros(n)
  {
    if n > 0 {
      ZeroField(n - 1);
      assert Zeros(n) == Zeros(n - 1) + ['0'];
    }
  }

  /** The range of a C unsigned int. */
  const UintRange: nat := 0x1_0000_0000

  lemma ModAdd(a: int, b: int, m: int)
    requires m > 0
    ensures (a % m + b) % m == (a + b) % m
  {
    var q, r := a / m, a % m;
    var q2, r2 := (r + b) / m, (r + b) % m;
    assert a + b == m * (q + q2) + r2 by {
      assert r + b == m * q2 + r2;
      assert a == m * q + r;
      assert m * q + m * q2 == m * (q + q2);
    }
    DivModUnique(a + b, m, q + q2, r2);
  }

  lemma ModDouble(a: int, m: int)
    requires m > 0
    ensures (2 * (a % m)) % m == (2 * a) % m
  {
    var q, r := a / m, a % m;
    assert 2 * a == 2 * r + m * (2 * q) by {
      assert a == m * q + r;
      assert 2 * (m * q) == m * (2 * q);
    }
    ModAdd(2 * r, m * (2 * q), m);
    ModMultiple(2 * r, 2 * q, m);
  }

  lemma ModMultiple(a: int, k: int, m: int)
    requires m > 0
    ensures (a + m * k) % m == a % m
  {
    DivModUnique(a + m * k, m, a / m + k, a % m);
  }

  lemma BinaryValueFrom(s: string, i: nat)
    requires i < |s|
    ensures BinaryValue(s[i..]) == (if s[i] == '1' then Pow2(|s| - 1 - i) else 0) + BinaryValue(s[i + 1..])
  {
    assert s[i..][1..] == s[i + 1..];
  }

  /** binaryToOctal (first_pass_help.c:481-495): despite its name it computes
      the unsigned value of the bit string, from the last character to the
      first, in 32-bit unsigned arithmetic. */
  method BinaryToOctal(s: string) returns (octal: nat)
    ensures octal == BinaryValue(s) % UintRange
  {
    octal := 0;
    var power: nat := 1;
    // `i` is one past the C loop's index: bits i.. have been added.
    var i := |s|;
    while i > 0
      invariant 0 <= i <= |s|
      invariant octal == BinaryValue(s[i..]) % UintRange
      invariant power == Pow2(|s| - i) % UintRange
    {
      octal, power := BitStep(s, i - 1, octal, power);
      i := i - 1;
    }
    assert s[0..] == s;
  }

  /** One round of the loop in binaryToOctal (first_pass_help.c:487-492):
      bit `i` adds the current power of two, and the power doubles. */
  method BitStep(s: string, i: nat, octal0: nat, power0: nat) returns (octal: nat, power: nat)
    requires i < |s|
    requires octal0 == BinaryValue(s[i + 1..]) % UintRange
    requires power0 == Pow2(|s| - 1 - i) % UintRange
    ensures octal == BinaryValue(s[i..]) % UintRange
    ensures power == Pow2(|s| - i) % UintRange
  {
    BinaryValueFrom(s, i);
    octal := octal0;
    if s[i] == '1' {
      ModAdd(Pow2(|s| - 1 - i), BinaryValue(s[i + 1..]), UintRange);
      ModAdd(BinaryValue(s[i + 1..]), power0, UintRange);
      octal := (octal0 + power0) % UintRange;
    }
    ModDouble(Pow2(|s| - 1 - i), UintRange);
    power := (power0 * 2) % UintRange;
  }

  /** A word of at most 32 bits keeps its whole value. */
  lemma {:induction false} SmallValue(s: string)
    requires |s| <= 32
    ensures BinaryValue(s) % UintRange == BinaryValue(s)
  {
    Pow2Monotone(|s|, 32);
    assert Pow2(32) == UintRange by { Pow2Of32(); }
  }

  lemma {:induction false} Pow2Monotone(a: nat, b: nat)
    requires a <= b
    ensures Pow2(a) <= Pow2(b)
    decreases b
  {
    if a < b {
      Pow2Monotone(a, b - 1);
    }
  }

  lemma Pow2Of32()
    ensures Pow2(32) == 0x1_0000_0000
  {
    assert Pow2(8) == 256;
    assert Pow2(16) == 256 * Pow2(8) by { Pow2Add(8, 8); }
    assert Pow2(32) == Pow2(16) * Pow2(16) by { Pow2Add(16, 16); }
  }

  lemma {:induction false} Pow2Add(a: nat, b: nat)
    ensures Pow2(a + b) == Pow2(a) * Pow2(b)
    decreases a
  {
    if a > 0 {
      Pow2Add(a - 1, b);
      assert Pow2(a + b) == 2 * Pow2(a - 1 + b);
    }
  }

  /** The bits decimal_to_binary writes, read back by binaryToOctal, give the
      number modulo 2 to the width. */
  lemma DecimalThenOctal(length: nat, d: int)
    requires length <= 32
    ensures BinaryValue(Field(length, d)) % UintRange == d % Pow2(length)
  {
    FieldValue(length, d);
    SmallValue(Field(length, d));
  }

  /** The value after `k` arithmetic right shifts. */
  function Halve(v: int, k: nat): int {
    if k == 0 then v else Halve(v, k - 1) / 2
  }

  lemma {:induction false} HalveShift(v: int, k: nat)
    ensures Halve(v / 2, k) == Halve(v, k + 1)
  {
    if k > 0 {
      HalveShift(v, k - 1);
    }
  }

  /** A field one place wider gains, at its front, the bit the value has after `k` shifts. */
  lemma {:induction false} FieldFront(k: nat, v: int)
    ensures Field(k + 1, v) == [BitChar(Halve(v, k) % 2 == 1)] + Field(k, v)
  {
    if k > 0 {
      FieldFront(k - 1, v / 2);
      HalveShift(v, k - 1);
    }
  }

  /** The bit loop of add_to_data_image (first_pass_help.c:174-183): fifteen
      times the low bit is written, from the last place backwards, and the
      value shifted right arithmetically. */
  method LowBits(value: int) returns (bits: string)
    ensures bits == Field(15, value)
  {
    var b := new char[15];
    var v := value;
    var i := 14;
    while i >= 0
      invariant -1 <= i <= 14
      invariant v == Halve(value, 14 - i)
      invariant b[i + 1..] == Field(14 - i, value)
    {
      FieldFront(14 - i, value);
      b[i] := BitChar(v % 2 == 1);
      assert b[i..] == [b[i]] + b[i + 1..];
      v := v / 2;
      i := i - 1;
    }
    bits := b[..];
  }
}
