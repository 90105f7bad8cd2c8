/** The end of implement_first_pass (first_pass.c:155-176): the validity gate
    before the second pass, then the listing and the object file. */
module Chain {
  import opened CString
  import opened FirstPassHelp
  import FirstPass
  import SecondPass
  import Output

  /** The files one source file leads to: the object file, and the entry and
      extern files, each `None` when it was removed for being empty. */
  datatype Files = Files(objectFile: seq<string>, entries: Option<seq<string>>, externs: Option<seq<string>>)

  /** Nothing is written when pass 1 left the file invalid; otherwise pass 2
      runs on the memory of pass 1, and the object file is converted from the
      listing of the resolved code and the data moved by IC. */
  function Assembled(lines: seq<string>): Option<Files> {
    var st := FirstPass.FirstPassResult(lines);
    if !st.valid then None
    else
      var r := Resolved(lines);
      Some(Files(Output.ObjectFile(Output.Header(st.ic, st.dc), r.code, Output.Relocated(st.data, st.ic)),
                 SecondPass.RecordFile(r.entries, true),
                 SecondPass.RecordFile(r.externs, false)))
  }

  /** What the second pass makes of the memory pass 1 leaves. */
  function Resolved(lines: seq<string>): SecondPass.Pass2 {
    var st := FirstPass.FirstPassResult(lines);
    SecondPass.SecondRun(SecondPass.Pass2(st.code, [], []), st.labels, lines)
  }

  /** implement_first_pass from update_data_label on (first_pass.c:155-176). */
  method ImplementFirstPassFiles(lines: seq<string>) returns (files: Option<Files>)
    ensures files == Assembled(lines)
  {
    var m, ic, dc, valid := FirstPass.ImplementFirstPass(lines);
    if !valid {
      return None;
    }
    var ok, entFile, extFile := SecondPass.ImplementSecondPass(m, lines);
    var listing := Output.PrintMemory(m, ic, dc);
    var objectFile := Output.CopyAndConvertFile(listing[0], m.code, m.data);
    files := Some(Files(objectFile, entFile, extFile));
  }

  /** The files are written exactly when pass 1 left the file valid. */
  lemma WrittenIffValid(lines: seq<string>)
    ensures Assembled(lines).Some? <==> FirstPass.FirstPassResult(lines).valid
  {
  }

  /** An object file `ob` for a listing with header `header`, pass-1 code
      `code0` resolved to `code`, and data `data` moved by `ic`: the header,
      then one line per code word at its pass-1 address with its resolved
      bits (its pass-1 bits unless pass 2 filled it), then one line per data
      word at its moved address. */
  predicate ObjectShape(ob: seq<string>, header: string, code0: seq<CodeWord>, code: seq<CodeWord>, data: seq<DataWord>, ic: int) {
    && |code| == |code0| && |ob| == 1 + |code0| + |data| && ob[0] == header
    && (forall k | 0 <= k < |code0| :: ob[1 + k] == Output.ObjectLine(code0[k].address, code[k].bits))
    && (forall k | 0 <= k < |code0| && code0[k].bits != [] :: ob[1 + k] == Output.ObjectLine(code0[k].address, code0[k].bits))
    && (forall k | 0 <= k < |data| :: ob[1 + |code0| + k] == Output.ObjectLine(data[k].address + ic, data[k].bits))
  }

  /** The object file of a valid source file has that shape, with the header
      of the final IC and DC. */
  lemma ObjectFileShape(lines: seq<string>)
    requires FirstPass.FirstPassResult(lines).valid
    ensures var st := FirstPass.FirstPassResult(lines);
            ObjectShape(Assembled(lines).value.objectFile, Output.Header(st.ic, st.dc), st.code, Resolved(lines).code, st.data, st.ic)
  {
    var st := FirstPass.FirstPassResult(lines);
    var start := SecondPass.Pass2(st.code, [], []);
    SecondPass.SecondRunKeepsLayout(start, st.labels, lines);
    ObjectOfListing(Output.Header(st.ic, st.dc), st.code, Resolved(lines).code, st.data, st.ic);
  }

  lemma ObjectOfListing(header: string, code0: seq<CodeWord>, code: seq<CodeWord>, data: seq<DataWord>, ic: int)
    requires SecondPass.SameLayout(code0, code) && SecondPass.FillsOnlyEmpty(code0, code)
    ensures ObjectShape(Output.ObjectFile(header, code, Output.Relocated(data, ic)), header, code0, code, data, ic)
  {
    var moved := Output.Relocated(data, ic);
    var dataLines := Output.DataObjects(moved);
    var ob := [header] + Output.CodeObjects(code) + dataLines;
    CodeLinesAt(ob, header, code0, code, dataLines);
    FilledKept(ob, code0, code);
    DataLinesAt(ob, [header] + Output.CodeObjects(code), data, ic);
  }

  /** The code lines of an object file carry the pass-1 addresses. */
  lemma CodeLinesAt(ob: seq<string>, header: string, code0: seq<CodeWord>, code: seq<CodeWord>, rest: seq<string>)
    requires SecondPass.SameLayout(code0, code)
    requires ob == [header] + Output.CodeObjects(code) + rest
    ensures |ob| == 1 + |code0| + |rest| && ob[0] == header
    ensures forall k | 0 <= k < |code0| :: ob[1 + k] == Output.ObjectLine(code0[k].address, code[k].bits)
  {
    var lines := Output.CodeObjects(code);
    ThreeParts(header, lines, rest);
    forall k | 0 <= k < |code0|
      ensures ob[1 + k] == Output.ObjectLine(code0[k].address, code[k].bits)
    {
      assert ob[1 + k] == lines[k];
      assert code0[k].address == code[k].address;
    }
  }

  /** A code word pass 2 did not fill keeps its pass-1 bits in the object file. */
  lemma FilledKept(ob: seq<string>, code0: seq<CodeWord>, code: seq<CodeWord>)
    requires |code| == |code0| && SecondPass.FillsOnlyEmpty(code0, code) && |ob| > |code0|
    requires forall k | 0 <= k < |code0| :: ob[1 + k] == Output.ObjectLine(code0[k].address, code[k].bits)
    ensures forall k | 0 <= k < |code0| && code0[k].bits != [] :: ob[1 + k] == Output.ObjectLine(code0[k].address, code0[k].bits)
  {
    forall k | 0 <= k < |code0| && code0[k].bits != []
      ensures ob[1 + k] == Output.ObjectLine(code0[k].address, code0[k].bits)
    {
      assert code[k] == code0[k];
    }
  }

  /** The data lines of an object file carry the addresses moved by IC. */
  lemma DataLinesAt(ob: seq<string>, front: seq<string>, data: seq<DataWord>, ic: int)
    requires ob == front + Output.DataObjects(Output.Relocated(data, ic))
    ensures forall k | 0 <= k < |data| :: ob[|front| + k] == Output.ObjectLine(data[k].address + ic, data[k].bits)
  {
    var moved := Output.Relocated(data, ic);
    forall k | 0 <= k < |data|
      ensures ob[|front| + k] == Output.ObjectLine(data[k].address + ic, data[k].bits)
    {
      assert ob[|front| + k] == Output.DataObjects(moved)[k];
    }
  }

  lemma ThreeParts<T>(h: T, a: seq<T>, b: seq<T>)
    ensures |[h] + a + b| == 1 + |a| + |b| && ([h] + a + b)[0] == h
    ensures forall k | 0 <= k < |a| :: ([h] + a + b)[1 + k] == a[k]
  {
  }
}
