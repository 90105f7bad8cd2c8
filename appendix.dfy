/** The line and list routines of the macro pre-assembler (appendix.c): line
    normalisation, the macro list, and the two file transforms that remove
    macro definitions and expand macro invocations. */
module Appendix {
  import opened CString


  // ---------------------------------------------------------------------
  // add_new_file

  /** add_new_file (appendix.c:9-21): the file name up to its first '.'
      (the whole name when it has none), then `ending`. */
  function AddNewFile(fileName: string, ending: string): (r: string)
    ensures |r| >= |ending|
    ensures '.' !in r[..|r| - |ending|] && r[|r| - |ending|..] == ending
    ensures r[..|r| - |ending|] <= fileName
    ensures r[..|r| - |ending|] == fileName || fileName[|r| - |ending|] == '.'
  {
    fileName[..CSpan(fileName, {'.'})] + ending
  }

  /** Adding an ending that starts with '.' to a name that already has one
      replaces the old ending. */
  lemma ReplaceEnding(fileName: string, e1: string, e2: string)
    requires e1 != [] && e1[0] == '.'
    ensures AddNewFile(AddNewFile(fileName, e1), e2) == AddNewFile(fileName, e2)
  {
    var stem := fileName[..CSpan(fileName, {'.'})];
    var once := stem + e1;
    assert forall i | 0 <= i < |stem| :: once[i] == stem[i] && once[i] != '.';
    assert once[|stem|] == '.';
    CSpanAt(once, {'.'}, |stem|);
    assert once[..|stem|] == stem;
  }

  /** strcspn stops at the first character of `stop`. */
  lemma {:induction false} CSpanAt(s: string, stop: set<char>, k: nat)
    requires k < |s| && s[k] in stop && forall i | 0 <= i < k :: s[i] !in stop
    ensures CSpan(s, stop) == k
  {
    if k > 0 {
      CSpanAt(s[1..], stop, k - 1);
    }
  }

  // ---------------------------------------------------------------------
  // remove_spaces_next_to_comma

  /** A space whose left or right neighbour is a comma. */
  predicate NextToComma(s: string, i: nat)
    requires i < |s|
  {
    s[i] == ' ' && ((i > 0 && s[i - 1] == ',') || (i + 1 < |s| && s[i + 1] == ','))
  }

  /** The characters of s[a..b] that are not a space next to a comma (the
      neighbours are looked up in all of `s`), in order. */
  function Kept(s: string, a: nat, b: nat): string
    requires a <= b <= |s|
    decreases b - a
  {
    if a == b then [] else Kept(s, a, b - 1) + (if NextToComma(s, b - 1) then [] else [s[b - 1]])
  }

  /** What remove_spaces_next_to_comma leaves: the line unchanged when it
      starts with a comma, otherwise the line without the spaces next to a
      comma. */
  function CommaTidy(s: string): string {
    if s != [] && s[0] == ',' then s else Kept(s, 0, |s|)
  }

  lemma {:induction false} KeptSplit(s: string, a: nat, b: nat, c: nat)
    requires a <= b <= c <= |s|
    ensures Kept(s, a, c) == Kept(s, a, b) + Kept(s, b, c)
    decreases c - b
  {
    if b < c {
      KeptSplit(s, a, b, c - 1);
    }
  }

  lemma {:induction false} KeptAll(s: string, a: nat, b: nat)
    requires a <= b <= |s|
    requires forall i | a <= i < b :: !NextToComma(s, i)
    ensures Kept(s, a, b) == s[a..b]
    decreases b - a
  {
    if a < b {
      KeptAll(s, a, b - 1);
      assert s[a..b] == s[a..b - 1] + [s[b - 1]];
    }
  }

  /** The text between the resume point `k` of the loop and the next comma
      `x`: every character before x - 1 stays, x - 1 and x + 1 go exactly
      when they are spaces, and the comma stays. */
  lemma RunToComma(s: string, k: nat, x: nat)
    requires k <= x < |s| && s[x] == ','
    requires ',' !in s[k..x]
    requires 0 < k < |s| && s[k - 1] == ',' ==> s[k] != ' '
    ensures forall i | k <= i < x - 1 :: !NextToComma(s, i)
    ensures k < x ==> (NextToComma(s, x - 1) <==> s[x - 1] == ' ')
    ensures !NextToComma(s, x)
    ensures x + 1 < |s| ==> (NextToComma(s, x + 1) <==> s[x + 1] == ' ')
  {
    forall i | k <= i < x
      ensures s[i] != ','
    {
      assert s[i] == s[k..x][i - k];
    }
  }

  /** A space before the comma goes. */
  lemma DropBefore(s: string, k: nat, x: nat)
    requires k < x < |s| && s[x] == ',' && s[x - 1] == ' '
    requires ',' !in s[k..x]
    requires 0 < k < |s| && s[k - 1] == ',' ==> s[k] != ' '
    ensures Kept(s, k, x + 1) == s[k..x - 1] + [',']
  {
    KeptUpToSpace(s, k, x);
    SpaceCommaKept(s, x);
    KeptSplit(s, k, x - 1, x + 1);
  }

  /** Everything from the resume point up to the space before the comma stays. */
  lemma KeptUpToSpace(s: string, k: nat, x: nat)
    requires k < x < |s| && s[x] == ','
    requires ',' !in s[k..x]
    requires 0 < k < |s| && s[k - 1] == ',' ==> s[k] != ' '
    ensures Kept(s, k, x - 1) == s[k..x - 1]
  {
    RunToComma(s, k, x);
    KeptAll(s, k, x - 1);
  }

  /** Of a space and the comma after it only the comma stays. */
  lemma SpaceCommaKept(s: string, x: nat)
    requires 0 < x < |s| && s[x] == ',' && s[x - 1] == ' '
    ensures Kept(s, x - 1, x + 1) == [',']
  {
    KeptSplit(s, x - 1, x, x + 1);
  }

  /** Anything else before the comma stays. */
  lemma KeepBefore(s: string, k: nat, x: nat)
    requires k <= x < |s| && s[x] == ','
    requires k < x ==> s[x - 1] != ' '
    requires ',' !in s[k..x]
    requires 0 < k < |s| && s[k - 1] == ',' ==> s[k] != ' '
    ensures Kept(s, k, x + 1) == s[k..x + 1]
  {
    RunToComma(s, k, x);
    KeptAll(s, k, x + 1);
  }

  /** A space after a comma goes. */
  lemma DropAfter(s: string, x: nat)
    requires x + 1 < |s| && s[x] == ',' && s[x + 1] == ' '
    ensures Kept(s, x + 1, x + 2) == []
  {
  }

  /** The text after the last comma stays as it is. */
  lemma RunToEnd(s: string, k: nat)
    requires k <= |s|
    requires ',' !in s[k..]
    requires 0 < k < |s| && s[k - 1] == ',' ==> s[k] != ' '
    ensures Kept(s, k, |s|) == s[k..]
  {
    forall i | k <= i < |s|
      ensures s[i] != ','
    {
      assert s[i] == s[k..][i - k];
    }
    KeptAll(s, k, |s|);
  }

  /** strchr on the rest of the line from `k` finds the comma at k + n. */
  lemma CommaAt(s: string, k: nat, n: nat)
    requires k <= |s| && IndexOf(s[k..], ',') == Some(n)
    ensures k + n < |s| && s[k + n] == ',' && ',' !in s[k..k + n]
  {
    assert s[k..][..n] == s[k..k + n];
  }

  /** No space right after a comma at the resume point `k`. */
  predicate Resume(s: string, k: nat)
    requires k <= |s|
  {
    0 < k < |s| && s[k - 1] == ',' ==> s[k] != ' '
  }

  /** The scan of remove_spaces_next_to_comma over the text `r` from its
      pointer on: up to the next comma, one space before the comma and one
      space after it are deleted, and the scan resumes right after the comma
      (after the deleted space, if any). */
  function Scan(r: string): string
    decreases |r|
  {
    match IndexOf(r, ',')
    case None => r
    case Some(n) => DropLastSpace(r[..n]) + [','] + Scan(DropFirstSpace(r[n + 1..]))
  }

  /** The text before a comma, without its last character when that is a space. */
  function DropLastSpace(r: string): (h: string)
    ensures h <= r && |r| - 1 <= |h|
  {
    if r != [] && r[|r| - 1] == ' ' then r[..|r| - 1] else r
  }

  /** The text after a comma, without its first character when that is a space. */
  function DropFirstSpace(r: string): (t: string)
    ensures |t| <= |r| <= |t| + 1 && t == r[|r| - |t|..]
  {
    if r != [] && r[0] == ' ' then r[1..] else r
  }

  /** One round of the scan from pointer `k` of `s`, in terms of `s`. */
  lemma ScanRound(s: string, k: nat, n: nat)
    requires k <= |s| && IndexOf(s[k..], ',') == Some(n)
    ensures k + n < |s| && s[k + n] == ',' && ',' !in s[k..k + n]
    ensures Scan(s[k..]) == DropLastSpace(s[k..k + n]) + [','] + Scan(s[AfterComma(s, k + n)..])
  {
    CommaAt(s, k, n);
    SuffixStart(s, k + n);
    var r := s[k..];
    assert r[..n] == s[k..k + n];
    assert r[n + 1..] == s[k + n + 1..];
  }

  /** From every resume point the scan yields the reference result of the
      rest of the line. */
  lemma {:induction false} ScanIsKept(s: string, k: nat)
    requires k <= |s| && Resume(s, k)
    ensures Scan(s[k..]) == Kept(s, k, |s|)
    decreases |s| - k
  {
    var r := IndexOf(s[k..], ',');
    if r.None? {
      RunToEnd(s, k);
    } else {
      var n := r.value;
      ScanRound(s, k, n);
      KeptRound(s, k, k + n);
      ScanIsKept(s, AfterComma(s, k + n));
    }
  }

  /** Where the scan resumes after the comma at `x`: past one space after it. */
  function AfterComma(s: string, x: nat): (next: nat)
    requires x < |s|
    ensures x < next <= |s|
  {
    if x + 1 < |s| && s[x + 1] == ' ' then x + 2 else x + 1
  }

  /** The reference result from resume point `k`, split at the comma `x`. */
  lemma KeptRound(s: string, k: nat, x: nat)
    requires k <= x < |s| && s[x] == ',' && ',' !in s[k..x] && Resume(s, k)
    ensures Kept(s, k, |s|) == DropLastSpace(s[k..x]) + [','] + Kept(s, AfterComma(s, x), |s|)
    ensures Resume(s, AfterComma(s, x))
  {
    var next := AfterComma(s, x);
    assert Kept(s, k, x + 1) == DropLastSpace(s[k..x]) + [','] by {
      SliceEnd(s, k, x);
      if k < x && s[x - 1] == ' ' {
        DropBefore(s, k, x);
      } else {
        KeepBefore(s, k, x);
      }
    }
    assert Kept(s, x + 1, |s|) == Kept(s, next, |s|) by {
      if next == x + 2 {
        DropAfter(s, x);
        KeptSplit(s, x + 1, x + 2, |s|);
        var rest := Kept(s, x + 2, |s|);
        assert [] + rest == rest;
      }
    }
    KeptSplit(s, k, x + 1, |s|);
  }

  /** The end of a slice, as DropLastSpace sees it. */
  lemma SliceEnd(s: string, a: nat, b: nat)
    requires a <= b < |s|
    ensures s[a..b + 1] == s[a..b] + [s[b]]
    ensures DropLastSpace(s[a..b]) == if a < b && s[b - 1] == ' ' then s[a..b - 1] else s[a..b]
  {
  }

  /** The text after the comma at `x`, as DropFirstSpace sees it. */
  lemma SuffixStart(s: string, x: nat)
    requires x < |s|
    ensures DropFirstSpace(s[x + 1..]) == s[AfterComma(s, x)..]
  {
    if x + 1 < |s| {
      assert s[x + 1..][1..] == s[x + 2..];
    }
  }

  /** One round of the scan over `r` whose first comma is at `n`. */
  lemma ScanUnfold(r: string, n: nat)
    requires IndexOf(r, ',') == Some(n)
    ensures n < |r| && r[n] == ','
    ensures Scan(r) == DropLastSpace(r[..n]) + [','] + Scan(r[AfterComma(r, n)..])
  {
    ScanAtComma(r, n);
    SuffixStart(r, n);
  }

  lemma ScanAtComma(r: string, n: nat)
    requires IndexOf(r, ',') == Some(n)
    ensures Scan(r) == DropLastSpace(r[..n]) + [','] + Scan(DropFirstSpace(r[n + 1..]))
  {
  }

  /** The buffer of the loop is `done + rest` with the pointer at |done|:
      its characters from the pointer on are those of `rest`. */
  lemma Lookup(done: string, rest: string, i: nat)
    requires i < |rest|
    ensures (done + rest)[|done| + i] == rest[i]
  {
  }

  /** The memmove that deletes the space before the comma at n in `rest`. */
  lemma CloseBefore(done: string, rest: string, n: nat, s1: string)
    requires 0 < n < |rest| && rest[n] == ',' && rest[n - 1] == ' '
    requires s1 == (done + rest)[..|done| + n - 1] + (done + rest)[|done| + n..]
    ensures s1 == done + rest[..n - 1] + [','] + rest[n + 1..]
    ensures |s1| == |done| + |rest| - 1
  {
    var s := done + rest;
    assert s[..|done| + n - 1] == done + rest[..n - 1];
    assert s[|done| + n..] == [','] + rest[n + 1..];
  }

  /** The memmove that deletes the space after the comma, which sits at
      |pre| in the buffer. */
  lemma CloseAfter(pre: string, rest: string, s2: string)
    requires rest != [] && rest[0] == ' '
    requires var s1 := pre + [','] + rest; s2 == s1[..|pre| + 1] + s1[|pre| + 2..]
    ensures s2 == pre + [','] + rest[1..]
  {
    var s1 := pre + [','] + rest;
    assert s1[..|pre| + 1] == pre + [','];
    assert s1[|pre| + 2..] == rest[1..];
  }

  lemma EndsInComma(a: string, u: string)
    requires u == a + [',']
    ensures u != [] && u[|u| - 1] == ','
  {
  }

  lemma SuffixAfter(d: string, t: string)
    ensures (d + t)[|d|..] == t
  {
  }

  /** What the scanned text gained moves from the scan of the rest to the
      scanned text. */
  lemma Advance(done: string, d: string, tail: string, whole: string)
    requires done + (d + [','] + tail) == whole
    ensures done + d + [','] + tail == whole
  {
    assert done + d + [','] + tail == done + (d + [','] + tail);
  }

  /** The buffer `s2` and pointer `p2` that one round of the loop of
      remove_spaces_next_to_comma leaves, from buffer `s` with the comma at
      `q`: a memmove over the space before the comma (and then over a space
      right after it), or else over a space right after it. */
  predicate RoundResult(s: string, q: nat, s2: string, p2: nat)
    requires q < |s|
  {
    if q > 0 && s[q - 1] == ' ' then
      var s1 := s[..q - 1] + s[q..];
      p2 == q && s2 == if q < |s1| && s1[q] == ' ' then s1[..q] + s1[q + 1..] else s1
    else if q + 1 < |s| && s[q + 1] == ' ' then
      p2 == q + 1 && s2 == s[..q + 1] + s[q + 2..]
    else
      p2 == q + 1 && s2 == s
  }

  /** One round on the buffer `done + rest`, the pointer at |done| and the
      first comma of `rest` at `n`: the text up to the comma (without a space
      just before it) and the comma join `done`, and `rest` loses them and a
      space right after the comma. */
  lemma RoundStep(done: string, rest: string, n: nat, s: string, q: nat, s2: string, p2: nat)
    requires IndexOf(rest, ',') == Some(n)
    requires done != [] ==> done[|done| - 1] == ','
    requires s == done + rest && q == |done| + n < |s| && RoundResult(s, q, s2, p2)
    ensures s2 == done + DropLastSpace(rest[..n]) + [','] + rest[AfterComma(rest, n)..]
    ensures p2 == |done + DropLastSpace(rest[..n]) + [',']|
  {
    assert s[q] == ',' by {
      Lookup(done, rest, n);
    }
    assert (q > 0 && s[q - 1] == ' ') <==> (n > 0 && rest[n - 1] == ' ') by {
      if n > 0 {
        Lookup(done, rest, n - 1);
      }
    }
    assert (q + 1 < |s| && s[q + 1] == ' ') <==> AfterComma(rest, n) == n + 2 by {
      if n + 1 < |rest| {
        Lookup(done, rest, n + 1);
      }
    }
    SliceEnd(rest, 0, n);
    assert rest[0..n] == rest[..n];
    if n > 0 && rest[n - 1] == ' ' {
      assert rest[0..n - 1] == rest[..n - 1];
      RoundDropBefore(done, rest, n, s, q, s2);
    } else if AfterComma(rest, n) == n + 2 {
      RoundDropAfter(done, rest, n, s, q, s2);
    } else {
      RoundKeep(done, rest, n, s);
    }
  }

  /** The space before the comma goes, and then one right after it. */
  lemma RoundDropBefore(done: string, rest: string, n: nat, s: string, q: nat, s2: string)
    requires 0 < n < |rest| && rest[n] == ',' && rest[n - 1] == ' '
    requires s == done + rest && q == |done| + n
    requires var s1 := s[..q - 1] + s[q..];
             s2 == if q < |s1| && s1[q] == ' ' then s1[..q] + s1[q + 1..] else s1
    ensures s2 == done + rest[..n - 1] + [','] + rest[AfterComma(rest, n)..]
  {
    var s1 := s[..q - 1] + s[q..];
    CloseBefore(done, rest, n, s1);
    if q < |s1| && s1[q] == ' ' {
      assert rest[n + 1..] != [] && rest[n + 1..][0] == ' ';
      CloseAfter(done + rest[..n - 1], rest[n + 1..], s2);
      assert rest[n + 1..][1..] == rest[n + 2..];
    }
  }

  /** Only the space right after the comma goes. */
  lemma RoundDropAfter(done: string, rest: string, n: nat, s: string, q: nat, s2: string)
    requires n + 1 < |rest| && rest[n] == ',' && rest[n + 1] == ' '
    requires s == done + rest && q == |done| + n
    requires s2 == s[..q + 1] + s[q + 2..]
    ensures s2 == done + rest[..n] + [','] + rest[n + 2..]
  {
    assert s == (done + rest[..n]) + [','] + rest[n + 1..];
    CloseAfter(done + rest[..n], rest[n + 1..], s2);
    assert rest[n + 1..][1..] == rest[n + 2..];
  }

  /** Nothing goes. */
  lemma RoundKeep(done: string, rest: string, n: nat, s: string)
    requires n < |rest| && rest[n] == ','
    requires s == done + rest
    ensures s == done + rest[..n] + [','] + rest[n + 1..]
  {
    assert rest == rest[..n] + [','] + rest[n + 1..];
  }

  /** The body of the loop of remove_spaces_next_to_comma with the comma at
      `q` (appendix.c:70-84): the memmoves that close the gap left by a
      space before the comma, then by one after it, or by a space after it
      only; the new pointer is returned with the new buffer. */
  method CommaRound(s: string, q: nat) returns (s2: string, p2: nat)
    requires q < |s|
    ensures RoundResult(s, q, s2, p2)
  {
    s2 := s;
    if q > 0 && s2[q - 1] == ' ' {
      s2 := s2[..q - 1] + s2[q..];
      if q < |s2| && s2[q] == ' ' {
        s2 := s2[..q] + s2[q + 1..];
      }
      p2 := q;
    } else if q + 1 < |s2| && s2[q + 1] == ' ' {
      s2 := s2[..q + 1] + s2[q + 2..];
      p2 := q + 1;
    } else {
      p2 := q + 1;
    }
  }

  /** remove_spaces_next_to_comma (appendix.c:63-87): the string is edited
      in place; `p` is the scan pointer and every deletion is a memmove that
      closes the gap. The ghost `done` and `rest` split the buffer at the
      pointer. */
  method RemoveSpacesNextToComma(s0: string) returns (s: string)
    ensures s == CommaTidy(s0)
  {
    s := s0;
    if s != [] && s[0] == ',' {
      return;
    }
    ScanIsKept(s0, 0);
    assert s0[0..] == s0;
    ghost var target := Kept(s0, 0, |s0|);
    ghost var done: string, rest := [], s0;
    var p := 0;
    var next := IndexOf(s[p..], ',');
    while next.Some?
      invariant s == done + rest && p == |done|
      invariant done + Scan(rest) == target
      invariant done != [] ==> done[|done| - 1] == ','
      invariant next == IndexOf(rest, ',')
      decreases |rest|
    {
      ghost var (s', n) := (s, next.value);
      var q := p + next.value;
      s, p := CommaRound(s, q);
      RoundStep(done, rest, n, s', q, s, p);
      ScanUnfold(rest, n);
      ghost var d := DropLastSpace(rest[..n]);
      Advance(done, d, Scan(rest[AfterComma(rest, n)..]), target);
      EndsInComma(done + d, done + d + [',']);
      done, rest := done + d + [','], rest[AfterComma(rest, n)..];
      SuffixAfter(done, rest);
      next := IndexOf(s[p..], ',');
    }
    assert s == done + rest;
  }

  // ---------------------------------------------------------------------
  // remove_extra_spaces_str

  /** is_space_or_tab (appendix.c:58-61): white space other than a newline. */
  const Blanks: set<char> := Whitespace - {'\n'}

  /** The copy loop of remove_extra_spaces_str over a line whose leading
      blanks are already skipped: characters other than blanks are copied,
      and every run of blanks becomes one space unless the run ends the line
      or is followed by the newline. */
  function Squeeze(t: string): string
    decreases |t|
  {
    if t == [] then []
    else if t[0] !in Blanks then [t[0]] + Squeeze(t[1..])
    else
      var rest := t[Span(t, Blanks)..];
      (if rest == [] || rest[0] == '\n' then [] else [' ']) + Squeeze(rest)
  }

  /** What remove_extra_spaces_str (appendix.c:23-55) leaves: leading blanks
      removed, blank runs squeezed, then the spaces next to commas removed. */
  function ExtraSpacesRemoved(s: string): string {
    CommaTidy(Squeeze(s[Span(s, Blanks)..]))
  }

  /** strspn stops at the first character not in `accept`. */
  lemma {:induction false} SpanAt(s: string, accept: set<char>, k: nat)
    requires k <= |s| && (k == |s| || s[k] !in accept)
    requires forall i | 0 <= i < k :: s[i] in accept
    ensures Span(s, accept) == k
  {
    if k > 0 {
      SpanAt(s[1..], accept, k - 1);
    }
  }

  /** A copied character, seen from index `i` of `s`. */
  lemma SqueezeCopy(s: string, i: nat)
    requires i < |s| && s[i] !in Blanks
    ensures Squeeze(s[i..]) == [s[i]] + Squeeze(s[i + 1..])
  {
    assert s[i..][1..] == s[i + 1..];
  }

  /** A run of blanks s[k..i], seen from index `k` of `s`. */
  lemma SqueezeRun(s: string, k: nat, i: nat)
    requires k < i <= |s| && (i == |s| || s[i] !in Blanks)
    requires forall m | k <= m < i :: s[m] in Blanks
    ensures Squeeze(s[k..]) == (if i < |s| && s[i] != '\n' then [' '] else []) + Squeeze(s[i..])
  {
    SpanAt(s[k..], Blanks, i - k);
    assert s[k..][i - k..] == s[i..];
  }

  lemma Shift(a: string, b: string, x: string, w: string)
    requires a + (b + x) == w
    ensures a + b + x == w
  {
    assert a + b + x == a + (b + x);
  }

  /** The blank-skipping loops of remove_extra_spaces_str (appendix.c:28-30
      and 43-45): `j` is the first index from `i` on that is not a blank. */
  method SkipBlanks(str: string, i: nat) returns (j: nat)
    requires i <= |str|
    ensures i <= j <= |str| && (j == |str| || str[j] !in Blanks)
    ensures forall m | i <= m < j :: str[m] in Blanks
  {
    j := i;
    while j < |str| && str[j] in Blanks
      invariant i <= j <= |str| && forall m | i <= m < j :: str[m] in Blanks
    {
      j := j + 1;
    }
  }

  /** The copy loops of remove_extra_spaces_str (appendix.c:27-52): `i`
      reads the line and `temp` is the buffer str_temp filled so far. */
  method SqueezeLine(str: string) returns (temp: string)
    ensures temp == Squeeze(str[Span(str, Blanks)..])
  {
    var i := SkipBlanks(str, 0);
    SpanAt(str, Blanks, i);
    ghost var whole := Squeeze(str[i..]);
    temp := [];
    while i < |str|
      invariant i <= |str| && temp + Squeeze(str[i..]) == whole
      invariant i < |str| ==> str[i] !in Blanks
      decreases |str| - i
    {
      while i < |str| && str[i] !in Blanks
        invariant i <= |str| && temp + Squeeze(str[i..]) == whole
        decreases |str| - i
      {
        SqueezeCopy(str, i);
        Shift(temp, [str[i]], Squeeze(str[i + 1..]), whole);
        temp := temp + [str[i]];
        i := i + 1;
      }
      if i == |str| {
        break;
      }
      var k := i;
      i := SkipBlanks(str, i);
      SqueezeRun(str, k, i);
      if i < |str| && str[i] != '\n' {
        Shift(temp, [' '], Squeeze(str[i..]), whole);
        temp := temp + [' '];
      } else {
        assert [] + Squeeze(str[i..]) == Squeeze(str[i..]);
      }
    }
    assert str[i..] == [];
    assert temp + [] == temp;
  }

  /** remove_extra_spaces_str (appendix.c:23-55). */
  method RemoveExtraSpacesStr(str: string) returns (r: string)
    ensures r == ExtraSpacesRemoved(str)
  {
    var temp := SqueezeLine(str);
    r := RemoveSpacesNextToComma(temp);
  }

  // ---------------------------------------------------------------------
  // What the line normalisation keeps and what it produces

  /** The characters of `s` that are not blanks, in order. */
  function Visible(s: string): string
    decreases |s|
  {
    if s == [] then [] else (if s[0] in Blanks then [] else [s[0]]) + Visible(s[1..])
  }

  lemma {:induction false} VisibleAppend(a: string, b: string)
    ensures Visible(a + b) == Visible(a) + Visible(b)
    decreases |a|
  {
    if a == [] {
      assert a + b == b;
    } else {
      assert (a + b)[1..] == a[1..] + b;
      VisibleAppend(a[1..], b);
    }
  }

  /** Leading blanks are invisible. */
  lemma {:induction false} VisibleSkip(t: string, k: nat)
    requires k <= |t| && forall i | 0 <= i < k :: t[i] in Blanks
    ensures Visible(t) == Visible(t[k..])
    decreases k
  {
    if k > 0 {
      assert t[1..][k - 1..] == t[k..];
      VisibleSkip(t[1..], k - 1);
    }
  }

  /** Squeezing changes only blanks. */
  lemma {:induction false} SqueezeVisible(t: string)
    ensures Visible(Squeeze(t)) == Visible(t)
    decreases |t|
  {
    if t == [] {
    } else if t[0] !in Blanks {
      VisibleAppend([t[0]], Squeeze(t[1..]));
      SqueezeVisible(t[1..]);
    } else {
      var k := Span(t, Blanks);
      var rest := t[k..];
      var pre := if rest == [] || rest[0] == '\n' then [] else [' '];
      VisibleAppend(pre, Squeeze(rest));
      SqueezeVisible(rest);
      VisibleSkip(t, k);
    }
  }

  /** The reference result of the comma pass drops only spaces. */
  lemma {:induction false} KeptVisible(s: string, a: nat, b: nat)
    requires a <= b <= |s|
    ensures Visible(Kept(s, a, b)) == Visible(s[a..b])
    decreases b - a
  {
    if a < b {
      KeptVisible(s, a, b - 1);
      var last := if NextToComma(s, b - 1) then [] else [s[b - 1]];
      VisibleAppend(Kept(s, a, b - 1), last);
      assert s[a..b] == s[a..b - 1] + [s[b - 1]];
      VisibleAppend(s[a..b - 1], [s[b - 1]]);
    }
  }

  /** remove_extra_spaces_str changes only white space other than newlines:
      every other character of the line survives, in order. */
  lemma ExtraSpacesVisible(s: string)
    ensures Visible(ExtraSpacesRemoved(s)) == Visible(s)
  {
    var k := Span(s, Blanks);
    var u := Squeeze(s[k..]);
    VisibleSkip(s, k);
    SqueezeVisible(s[k..]);
    if !(u != [] && u[0] == ',') {
      KeptVisible(u, 0, |u|);
      assert u[0..|u|] == u;
    }
  }

  /** Every blank of `u` from index `from` on is a single space between two
      characters that are not blanks, the second not a newline. */
  predicate SpacedFrom(u: string, from: nat) {
    forall i | from <= i < |u| && u[i] in Blanks ::
      && u[i] == ' ' && 0 < i && i + 1 < |u|
      && u[i - 1] !in Blanks && u[i + 1] !in Blanks && u[i + 1] != '\n'
  }

  /** A line with no blank at its ends and single spaces between words. */
  predicate SingleSpaced(u: string) {
    SpacedFrom(u, 0)
  }

  /** A blank at the head of `u` is a single space before a character that
      is neither a blank nor a newline. */
  predicate SpacedHead(u: string) {
    u != [] && u[0] in Blanks ==> u[0] == ' ' && 1 < |u| && u[1] !in Blanks && u[1] != '\n'
  }

  lemma ConsSpaced(c: char, v: string)
    requires SpacedFrom(v, 1) && SpacedHead(v)
    requires c in Blanks ==> v != [] && v[0] !in Blanks
    ensures SpacedFrom([c] + v, 1)
  {
    var u := [c] + v;
    forall i | 1 <= i < |u| && u[i] in Blanks
      ensures u[i] == ' ' && 0 < i && i + 1 < |u|
      ensures u[i - 1] !in Blanks && u[i + 1] !in Blanks && u[i + 1] != '\n'
    {
      assert u[i] == v[i - 1];
      if i > 1 {
        assert u[i - 1] == v[i - 2];
      }
      assert u[i + 1] == v[i];
    }
  }

  /** The shape of a squeezed text: single spaces after its first character,
      a blank at its head only before a visible character, and its first
      character kept when that is not a blank. */
  lemma {:induction false} SqueezeShape(t: string)
    ensures SpacedFrom(Squeeze(t), 1) && SpacedHead(Squeeze(t))
    ensures t != [] && t[0] !in Blanks ==> Squeeze(t) != [] && Squeeze(t)[0] == t[0]
    decreases |t|
  {
    if t == [] {
    } else if t[0] !in Blanks {
      SqueezeShape(t[1..]);
      ConsSpaced(t[0], Squeeze(t[1..]));
    } else {
      var k := Span(t, Blanks);
      var rest := t[k..];
      SqueezeShape(rest);
      if !(rest == [] || rest[0] == '\n') {
        ConsSpaced(' ', Squeeze(rest));
      }
    }
  }

  /** After the leading blanks are skipped, the squeezed line is single spaced. */
  lemma SqueezeSingleSpaced(s: string)
    ensures SingleSpaced(Squeeze(s[Span(s, Blanks)..]))
  {
    var t := s[Span(s, Blanks)..];
    SqueezeShape(t);
  }

  /** No space stands right before or right after a comma. */
  predicate CommaTight(u: string) {
    forall i | 0 <= i < |u| - 1 :: !(u[i] == ' ' && u[i + 1] == ',') && !(u[i] == ',' && u[i + 1] == ' ')
  }

  /** On a single-spaced line, Kept up to `b` is comma tight and ends with
      the last character before `b` that is not a space next to a comma. */
  lemma {:induction false} KeptTight(s: string, b: nat)
    requires SingleSpaced(s) && 0 < b <= |s|
    ensures var u := Kept(s, 0, b);
            && CommaTight(u) && u != []
            && u[|u| - 1] == (if NextToComma(s, b - 1) then s[b - 2] else s[b - 1])
    decreases b
  {
    var u := Kept(s, 0, b);
    if b == 1 {
      assert s[0] !in Blanks;
      assert Kept(s, 0, 0) == [];
      assert u == [s[0]];
    } else {
      KeptTight(s, b - 1);
      var v := Kept(s, 0, b - 1);
      if !NextToComma(s, b - 1) {
        assert u == v + [s[b - 1]];
        if s[b - 1] in Blanks {
          assert s[b - 2] !in Blanks;
          assert v[|v| - 1] == s[b - 2];
        } else if s[b - 1] == ',' {
          assert v[|v| - 1] != ' ' by {
            if s[b - 2] in Blanks {
              assert s[b - 3] !in Blanks;
            }
          }
        }
        forall i | 0 <= i < |u| - 1
          ensures !(u[i] == ' ' && u[i + 1] == ',') && !(u[i] == ',' && u[i + 1] == ' ')
        {
          if i < |v| - 1 {
            assert u[i] == v[i] && u[i + 1] == v[i + 1];
          }
        }
      } else {
        assert u == v;
        assert s[b - 2] !in Blanks;
      }
    }
  }

  /** remove_spaces_next_to_comma on a single-spaced line that does not start
      with a comma leaves no space before or after any comma. */
  lemma CommaTidyTight(s: string)
    requires SingleSpaced(s) && !(s != [] && s[0] == ',')
    ensures CommaTight(CommaTidy(s))
  {
    if s != [] {
      KeptTight(s, |s|);
    }
  }

  /** A normalised line that does not start with a comma has no space next
      to a comma. */
  lemma ExtraSpacesTight(s: string)
    requires var u := Squeeze(s[Span(s, Blanks)..]); !(u != [] && u[0] == ',')
    ensures CommaTight(ExtraSpacesRemoved(s))
  {
    SqueezeSingleSpaced(s);
    CommaTidyTight(Squeeze(s[Span(s, Blanks)..]));
  }

  /** Every blank of `u` is a single space after a character that is not a
      blank, and before one that is neither a blank nor a newline unless it
      is the last character. */
  predicate SpacedUpTo(u: string) {
    forall i | 0 <= i < |u| && u[i] in Blanks ::
      && u[i] == ' ' && 0 < i && u[i - 1] !in Blanks
      && (i + 1 < |u| ==> u[i + 1] !in Blanks && u[i + 1] != '\n')
  }

  /** The comma pass drops only spaces, so on a single-spaced line every
      blank it keeps still sits between its two neighbours. */
  lemma {:induction false} KeptSpaced(s: string, b: nat)
    requires SingleSpaced(s) && b <= |s|
    ensures SpacedUpTo(Kept(s, 0, b))
    decreases b
  {
    if b > 0 {
      KeptSpaced(s, b - 1);
      var v := Kept(s, 0, b - 1);
      var u := Kept(s, 0, b);
      if !NextToComma(s, b - 1) {
        assert u == v + [s[b - 1]];
        if b > 1 {
          KeptTight(s, b - 1);
          if v[|v| - 1] in Blanks {
            assert v[|v| - 1] == s[b - 2];
          }
        }
        forall i | 0 <= i < |u| && u[i] in Blanks
          ensures u[i] == ' ' && 0 < i && u[i - 1] !in Blanks
          ensures i + 1 < |u| ==> u[i + 1] !in Blanks && u[i + 1] != '\n'
        {
          if i < |v| {
            assert u[i] == v[i];
            if 0 < i {
              assert u[i - 1] == v[i - 1];
            }
            if i + 1 < |v| {
              assert u[i + 1] == v[i + 1];
            }
          } else {
            assert s[b - 2] !in Blanks;
          }
        }
      } else {
        assert u == v;
      }
    }
  }

  /** The line remove_extra_spaces_str leaves has no blank at either end and
      no two blanks in a row: every blank is a single space between two
      characters that are not blanks. */
  lemma ExtraSpacesSingleSpaced(s: string)
    ensures SingleSpaced(ExtraSpacesRemoved(s))
  {
    var u := Squeeze(s[Span(s, Blanks)..]);
    SqueezeSingleSpaced(s);
    if !(u != [] && u[0] == ',') && u != [] {
      var r := Kept(u, 0, |u|);
      KeptSpaced(u, |u|);
      KeptTight(u, |u|);
      assert u[|u| - 1] !in Blanks;
      assert !NextToComma(u, |u| - 1);
      assert r[|r| - 1] !in Blanks;
    }
  }
}
