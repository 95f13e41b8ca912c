/**
 * The adapter of `lib/external-parsers/base.ts` that hands assembly to an external
 * parser program: the parser's command-line flags, the text of the launcher script
 * that pipes an objdump run into the parser, the command lines of the two entry
 * points, and the merge of the parser's JSON answer into the execution result.
 */
module ExternalParser {
  import opened Common
  import opened Strings

  // ---------------------------------------------------------------------------
  // Selecting a sub-sequence by a mask

  /** The elements of `xs` whose mask bit is set, in their order in `xs`. */
  function Select<T>(xs: seq<T>, mask: seq<bool>): seq<T>
    requires |xs| == |mask|
    decreases |xs|
  {
    if xs == [] then []
    else Pick(mask[0], xs[0]) + Select(xs[1..], mask[1..])
  }

  /** `[x]` when `b` holds, nothing otherwise. */
  function Pick<T>(b: bool, x: T): seq<T> {
    if b then [x] else []
  }

  /** The number of set bits. */
  function CountTrue(mask: seq<bool>): nat
    decreases |mask|
  {
    if mask == [] then 0 else (if mask[0] then 1 else 0) + CountTrue(mask[1..])
  }

  /** No element occurs twice. */
  predicate Distinct<T(==)>(xs: seq<T>) {
    forall i, j :: 0 <= i < j < |xs| ==> xs[i] != xs[j]
  }

  /** `a` is obtained from `b` by deleting elements, so it keeps `b`'s order. */
  predicate SubsequenceOf<T(==)>(a: seq<T>, b: seq<T>)
    decreases |b|
  {
    if a == [] then true
    else if b == [] then false
    else if a[0] == b[0] then SubsequenceOf(a[1..], b[1..])
    else SubsequenceOf(a, b[1..])
  }

  /** Extending the prefix by one element appends that element when its bit is set. */
  lemma {:induction false} SelectSnoc<T>(xs: seq<T>, mask: seq<bool>, k: nat)
    requires |xs| == |mask| && k < |xs|
    ensures Select(xs[..k + 1], mask[..k + 1]) == Select(xs[..k], mask[..k]) + Pick(mask[k], xs[k])
    decreases k
  {
    if k > 0 {
      SelectSnoc(xs[1..], mask[1..], k - 1);
      assert xs[1..][..k] == xs[..k + 1][1..];
      assert mask[1..][..k] == mask[..k + 1][1..];
      assert xs[1..][..k - 1] == xs[..k][1..];
      assert mask[1..][..k - 1] == mask[..k][1..];
    }
  }

  /** A selection from seven elements, written out position by position. */
  lemma SelectSeven<T>(xs: seq<T>, mask: seq<bool>)
    requires |xs| == |mask| == 7
    ensures Select(xs, mask) == Pick(mask[0], xs[0]) + Pick(mask[1], xs[1]) + Pick(mask[2], xs[2]) + Pick(mask[3], xs[3])
                              + Pick(mask[4], xs[4]) + Pick(mask[5], xs[5]) + Pick(mask[6], xs[6])
  {
    var p0, p1, p2, p3, p4, p5, p6 := Pick(mask[0], xs[0]), Pick(mask[1], xs[1]), Pick(mask[2], xs[2]),
      Pick(mask[3], xs[3]), Pick(mask[4], xs[4]), Pick(mask[5], xs[5]), Pick(mask[6], xs[6]);
    assert Select(xs[..1], mask[..1]) == p0 by {
      SelectSnoc(xs, mask, 0);
      assert [] + p0 == p0;
    }
    assert Select(xs[..2], mask[..2]) == p0 + p1 by {
      SelectSnoc(xs, mask, 1);
    }
    assert Select(xs[..3], mask[..3]) == p0 + p1 + p2 by {
      SelectSnoc(xs, mask, 2);
    }
    assert Select(xs[..4], mask[..4]) == p0 + p1 + p2 + p3 by {
      SelectSnoc(xs, mask, 3);
    }
    assert Select(xs[..5], mask[..5]) == p0 + p1 + p2 + p3 + p4 by {
      SelectSnoc(xs, mask, 4);
    }
    assert Select(xs[..6], mask[..6]) == p0 + p1 + p2 + p3 + p4 + p5 by {
      SelectSnoc(xs, mask, 5);
    }
    assert Select(xs[..7], mask[..7]) == p0 + p1 + p2 + p3 + p4 + p5 + p6 by {
      SelectSnoc(xs, mask, 6);
    }
    assert xs[..7] == xs && mask[..7] == mask;
  }
  /** An element is selected iff it stands at a position whose bit is set. */
  lemma {:induction false} SelectMember<T>(xs: seq<T>, mask: seq<bool>, x: T)
    requires |xs| == |mask|
    ensures x in Select(xs, mask) <==> exists i :: 0 <= i < |xs| && mask[i] && xs[i] == x
    decreases |xs|
  {
    if xs != [] {
      SelectMember(xs[1..], mask[1..], x);
      if x in Select(xs[1..], mask[1..]) {
        var i :| 0 <= i < |xs| - 1 && mask[1..][i] && xs[1..][i] == x;
        assert mask[i + 1] && xs[i + 1] == x;
      }
      if exists i :: 0 <= i < |xs| && mask[i] && xs[i] == x {
        var i :| 0 <= i < |xs| && mask[i] && xs[i] == x;
        if i > 0 {
          assert mask[1..][i - 1] && xs[1..][i - 1] == x;
        }
      }
    }
  }

  /** As many elements are selected as bits are set. */
  lemma {:induction false} SelectLength<T>(xs: seq<T>, mask: seq<bool>)
    requires |xs| == |mask|
    ensures |Select(xs, mask)| == CountTrue(mask)
    decreases |xs|
  {
    if xs != [] {
      SelectLength(xs[1..], mask[1..]);
    }
  }

  /** Selecting from distinct elements gives distinct elements. */
  lemma {:induction false} SelectDistinct<T>(xs: seq<T>, mask: seq<bool>)
    requires |xs| == |mask| && Distinct(xs)
    ensures Distinct(Select(xs, mask))
    decreases |xs|
  {
    if xs != [] {
      var rest := Select(xs[1..], mask[1..]);
      SelectDistinct(xs[1..], mask[1..]);
      if mask[0] {
        SelectMember(xs[1..], mask[1..], xs[0]);
        assert xs[0] !in rest by {
          forall i | 0 <= i < |xs| - 1
            ensures xs[1..][i] != xs[0]
          {
            assert xs[1..][i] == xs[i + 1];
          }
        }
        var s := Select(xs, mask);
        assert s == [xs[0]] + rest;
        forall i, j | 0 <= i < j < |s|
          ensures s[i] != s[j]
        {
          if i == 0 {
            assert s[j] == rest[j - 1];
          } else {
            assert s[i] == rest[i - 1] && s[j] == rest[j - 1];
          }
        }
      }
    }
  }

  /** A selection keeps the order of the sequence it selects from. */
  lemma {:induction false} SelectSubsequence<T>(xs: seq<T>, mask: seq<bool>)
    requires |xs| == |mask|
    ensures SubsequenceOf(Select(xs, mask), xs)
    decreases |xs|
  {
    if xs != [] {
      SelectSubsequence(xs[1..], mask[1..]);
      var rest := Select(xs[1..], mask[1..]);
      if mask[0] {
        assert Select(xs, mask) == [xs[0]] + rest;
        assert ([xs[0]] + rest)[1..] == rest;
      } else {
        assert Select(xs, mask) == rest;
        SubsequenceOfDrop(rest, xs);
      }
    }
  }

  /** A subsequence of the tail is a subsequence of the whole. */
  lemma {:induction false} SubsequenceOfDrop<T>(a: seq<T>, b: seq<T>)
    requires b != [] && SubsequenceOf(a, b[1..])
    ensures SubsequenceOf(a, b)
    decreases |b|, 0
  {
    if a != [] && a[0] == b[0] {
      SubsequenceOfTail(a, b[1..]);
    }
  }

  /** Dropping the first element of a subsequence keeps it a subsequence. */
  lemma {:induction false} SubsequenceOfTail<T>(a: seq<T>, b: seq<T>)
    requires a != [] && SubsequenceOf(a, b)
    ensures SubsequenceOf(a[1..], b)
    decreases |b|, 1
  {
    if a[0] != b[0] {
      SubsequenceOfTail(a, b[1..]);
    }
    if a[1..] != [] {
      SubsequenceOfDrop(a[1..], b);
    }
  }

  // ---------------------------------------------------------------------------
  // The parser's flags

  /** Every flag the parser can be given, in the order in which they are passed. */
  const FlagOrder: seq<string> :=
    ["-stdin", "-binary", "-unused_labels", "-directives", "-comment_only", "-whitespace", "-library_functions"]

  /** Which flag of `FlagOrder` is passed: one bit for the input mode, one per filter. */
  function FlagMask(filters: Filters, fromStdin: bool): (mask: seq<bool>)
    ensures |mask| == |FlagOrder|
  {
    [fromStdin, filters.binary, filters.labels, filters.directives, filters.commentOnly, filters.trim, filters.libraryCode]
  }

  /** The parser's arguments for these filters: the flags whose condition holds, in `FlagOrder`. */
  function ParserFlags(filters: Filters, fromStdin: bool): seq<string> {
    Select(FlagOrder, FlagMask(filters, fromStdin))
  }

  /** The flags written out one condition after the other. */
  lemma ParserFlagsExpanded(filters: Filters, fromStdin: bool)
    ensures ParserFlags(filters, fromStdin)
         == Pick(fromStdin, "-stdin") + Pick(filters.binary, "-binary") + Pick(filters.labels, "-unused_labels")
          + Pick(filters.directives, "-directives") + Pick(filters.commentOnly, "-comment_only")
          + Pick(filters.trim, "-whitespace") + Pick(filters.libraryCode, "-library_functions")
  {
    SelectSeven(FlagOrder, FlagMask(filters, fromStdin));
  }

  /** The flags are pairwise different: their second characters already are. */
  lemma FlagOrderDistinct()
    ensures Distinct(FlagOrder)
  {
    var seconds := "sbudcwl";
    assert forall i :: 0 <= i < |FlagOrder| ==> |FlagOrder[i]| >= 2 && FlagOrder[i][1] == seconds[i];
  }

  /** A flag is passed iff its condition holds. */
  lemma FlagPresentIff(filters: Filters, fromStdin: bool, i: nat)
    requires i < |FlagOrder|
    ensures FlagOrder[i] in ParserFlags(filters, fromStdin) <==> FlagMask(filters, fromStdin)[i]
  {
    var mask := FlagMask(filters, fromStdin);
    SelectMember(FlagOrder, mask, FlagOrder[i]);
    FlagOrderDistinct();
  }

  /** Reading from standard input puts `-stdin` first. */
  lemma StdinFirst(filters: Filters, fromStdin: bool)
    ensures fromStdin ==> |ParserFlags(filters, fromStdin)| >= 1 && ParserFlags(filters, fromStdin)[0] == "-stdin"
    ensures !fromStdin ==> "-stdin" !in ParserFlags(filters, fromStdin)
  {
    FlagPresentIff(filters, fromStdin, 0);
  }

  /** One flag per set filter, plus one for standard input. */
  lemma ParserFlagsLength(filters: Filters, fromStdin: bool)
    ensures |ParserFlags(filters, fromStdin)|
         == (if fromStdin then 1 else 0) + (if filters.binary then 1 else 0) + (if filters.labels then 1 else 0)
          + (if filters.directives then 1 else 0) + (if filters.commentOnly then 1 else 0)
          + (if filters.trim then 1 else 0) + (if filters.libraryCode then 1 else 0)
  {
    var mask := FlagMask(filters, fromStdin);
    SelectLength(FlagOrder, mask);
    assert mask[1..][1..][1..][1..][1..][1..][1..] == [];
  }

  /** No flag is passed twice, and the flags keep the fixed order. */
  lemma ParserFlagsDistinctOrdered(filters: Filters, fromStdin: bool)
    ensures Distinct(ParserFlags(filters, fromStdin))
    ensures SubsequenceOf(ParserFlags(filters, fromStdin), FlagOrder)
  {
    FlagOrderDistinct();
    SelectDistinct(FlagOrder, FlagMask(filters, fromStdin));
    SelectSubsequence(FlagOrder, FlagMask(filters, fromStdin));
  }

  /** Every flag is one of the seven known flags. */
  lemma ParserFlagsKnown(filters: Filters, fromStdin: bool)
    ensures forall f :: f in ParserFlags(filters, fromStdin) ==> f in FlagOrder
  {
    forall f | f in ParserFlags(filters, fromStdin)
      ensures f in FlagOrder
    {
      SelectMember(FlagOrder, FlagMask(filters, fromStdin), f);
    }
  }

  // ---------------------------------------------------------------------------
  // The launcher script

  /** The file name of the launcher script, written into the build folder. */
  const StarterScriptName := "dump-and-parse.sh"

  /** The permission bits of the launcher script, octal 777. */
  const StarterScriptMode := 511

  /** The line that runs objdump on the script's arguments and pipes its output into the parser. */
  function PipeLine(filters: Filters): string {
    "$OBJDUMP \"$@\" | $ASMPARSER " + Join(ParserFlags(filters, true), " ")
  }

  /** A line of the script: its text and the newline that ends it. */
  function Line(s: string): string {
    s + "\n"
  }

  /** The launcher script: four newline-terminated lines. */
  function StarterScript(objdumper: string, parser: string, filters: Filters): string {
    Line("#!/bin/bash") + Line("OBJDUMP=" + objdumper) + Line("ASMPARSER=" + parser) + Line(PipeLine(filters))
  }

  /** None of the seven flags contains a newline or a space. */
  lemma FlagOrderNoBlanks()
    ensures forall i :: 0 <= i < |FlagOrder| ==> '\n' !in FlagOrder[i] && ' ' !in FlagOrder[i]
  {
  }

  /** The fixed parts of the script contain no newline. */
  lemma ScriptTextNoNewline()
    ensures '\n' !in "#!/bin/bash" && '\n' !in "OBJDUMP=" && '\n' !in "ASMPARSER="
    ensures '\n' !in "$OBJDUMP \"$@\" | $ASMPARSER "
  {
  }

  /** No flag passed to the parser contains a newline or a space. */
  lemma FlagsNoBlanks(filters: Filters, fromStdin: bool)
    ensures forall i :: 0 <= i < |ParserFlags(filters, fromStdin)| ==> '\n' !in ParserFlags(filters, fromStdin)[i]
    ensures forall i :: 0 <= i < |ParserFlags(filters, fromStdin)| ==> ' ' !in ParserFlags(filters, fromStdin)[i]
  {
    ParserFlagsKnown(filters, fromStdin);
    FlagOrderNoBlanks();
    var flags := ParserFlags(filters, fromStdin);
    forall i | 0 <= i < |flags|
      ensures '\n' !in flags[i] && ' ' !in flags[i]
    {
      assert flags[i] in FlagOrder;
    }
  }

  /**
   * With paths free of newlines, the script splits into exactly the shebang line, the two
   * assignments and the pipe line, each newline-terminated.
   */
  lemma StarterScriptLines(objdumper: string, parser: string, filters: Filters)
    requires '\n' !in objdumper && '\n' !in parser
    ensures Split(StarterScript(objdumper, parser, filters), '\n')
         == ["#!/bin/bash", "OBJDUMP=" + objdumper, "ASMPARSER=" + parser, PipeLine(filters), ""]
  {
    var flags := ParserFlags(filters, true);
    FlagsNoBlanks(filters, true);
    JoinFree(flags, " ", '\n');
    ScriptTextNoNewline();
    SplitFourLines("#!/bin/bash", "OBJDUMP=" + objdumper, "ASMPARSER=" + parser, PipeLine(filters));
  }

  /** Concatenation is associative. */
  lemma Assoc(a: string, b: string, c: string)
    ensures (a + b) + c == a + (b + c)
  {
  }

  /** A newline-free line followed by more text splits into that line and the pieces of the rest. */
  lemma SplitLine(p: string, r: string)
    requires '\n' !in p
    ensures Split(Line(p) + r, '\n') == [p] + Split(r, '\n')
  {
    SplitCons(p, '\n', r);
  }

  /** Four newline-free lines, each newline-terminated, split back into those lines and an empty rest. */
  lemma SplitFourLines(l0: string, l1: string, l2: string, l3: string)
    requires '\n' !in l0 && '\n' !in l1 && '\n' !in l2 && '\n' !in l3
    ensures Split(Line(l0) + Line(l1) + Line(l2) + Line(l3), '\n') == [l0, l1, l2, l3, ""]
  {
    var L0, L1, L2, L3 := Line(l0), Line(l1), Line(l2), Line(l3);
    SplitNoSeparator("", '\n');
    SplitLine(l3, "");
    assert L3 + "" == L3;
    SplitLine(l2, L3);
    SplitLine(l1, L2 + L3);
    Assoc(L1, L2, L3);
    SplitLine(l0, L1 + L2 + L3);
    Assoc(L0, L1, L2);
    Assoc(L0, L1 + L2, L3);
  }

  /** The shell splits the pipe line's flags back into exactly the parser's flags. */
  lemma StarterScriptFlagsRoundTrip(filters: Filters)
    ensures Split(Join(ParserFlags(filters, true), " "), ' ') == ParserFlags(filters, true)
  {
    StdinFirst(filters, true);
    FlagsNoBlanks(filters, true);
    SplitJoin(ParserFlags(filters, true), ' ');
  }

  /** The script always makes the parser read standard input. */
  lemma StarterScriptReadsStdin(filters: Filters)
    ensures "$OBJDUMP \"$@\" | $ASMPARSER -stdin" <= PipeLine(filters)
  {
    var flags := ParserFlags(filters, true);
    StdinFirst(filters, true);
    JoinStartsWithFirst(flags, " ");
  }

  // ---------------------------------------------------------------------------
  // The parser's answer

  /** What the execution primitive resolves to: an object whose `stdout` is a string. */
  type ExecRecord = r: map<string, Value> | "stdout" in r && r["stdout"].Str? witness map["stdout" := Str("")]

  /** The own enumerable properties `Object.assign` copies from a parsed JSON value. */
  function OwnFields(v: Value): (fields: map<string, Value>)
    ensures v.Obj? ==> fields == v.fields
    ensures !v.Obj? && !v.Arr? && !v.Str? ==> fields == map[]
  {
    match v
    case Obj(fields) => fields
    case Arr(elems) =>
      NatToStringInjectiveAll();
      map i: nat | i < |elems| :: NatToString(i) := elems[i]
    case Str(s) =>
      NatToStringInjectiveAll();
      map i: nat | i < |s| :: NatToString(i) := Str([s[i]])
    case _ => map[]
  }

  lemma NatToStringInjectiveAll()
    ensures forall a: nat, b: nat :: NatToString(a) == NatToString(b) ==> a == b
  {
    forall a: nat, b: nat | NatToString(a) == NatToString(b)
      ensures a == b
    {
      NatToStringInjective(a, b);
    }
  }

  /**
   * The parsed result: the execution record with the decoded answer's fields laid over it,
   * without `stdout` and `stderr`; an answer that is not JSON is an error.
   */
  function ParsedAsm(decodeJson: string -> Result<Value>, execResult: ExecRecord): (r: Result<map<string, Value>>)
    ensures r.Ok? <==> decodeJson(execResult["stdout"].s).Ok?
    ensures r.Ok? ==> "stdout" !in r.value && "stderr" !in r.value
    ensures r.Ok? ==> forall k :: k in OwnFields(decodeJson(execResult["stdout"].s).value) && k != "stdout" && k != "stderr"
                                  ==> k in r.value && r.value[k] == OwnFields(decodeJson(execResult["stdout"].s).value)[k]
    ensures r.Ok? ==> forall k :: k in execResult && k !in OwnFields(decodeJson(execResult["stdout"].s).value) && k != "stdout" && k != "stderr"
                                  ==> k in r.value && r.value[k] == execResult[k]
    ensures r.Ok? ==> forall k :: k in r.value ==> k in execResult || k in OwnFields(decodeJson(execResult["stdout"].s).value)
  {
    var decoded :- decodeJson(execResult["stdout"].s);
    Ok((execResult + OwnFields(decoded)) - {"stdout", "stderr"})
  }

  // ---------------------------------------------------------------------------
  // The adapter object

  /** The collaborators the adapter calls but that are not part of this model. */
  datatype ParserHost = ParserHost(
    env: map<string, string>,
    maskRootdir: string -> string,
    join: (string, string) -> string,
    exec: (string, seq<string>, ExecOptions) -> ExecRecord,
    decodeJson: string -> Result<Value>)

  /** A file the adapter writes. */
  datatype FileWrite = FileWrite(path: string, content: string, mode: nat)

  /** A process the adapter runs. */
  datatype Invocation = Invocation(program: string, args: seq<string>, options: ExecOptions)

  class ExternalParserBase {
    const objdumperPath: string
    const parserPath: string
    const host: ParserHost

    /** The parser executable is the `exe` property of the parser's configuration, or empty. */
    constructor (objdumper: string, exe: Option<string>, host: ParserHost)
      ensures objdumperPath == objdumper
      ensures parserPath == if exe.Some? then exe.value else ""
      ensures this.host == host
    {
      objdumperPath := objdumper;
      parserPath := if exe.Some? then exe.value else "";
      this.host := host;
    }

    /** `getParserArguments`: pushes one flag per condition that holds, in the fixed order. */
    method GetParserArguments(filters: Filters, fromStdin: bool) returns (parameters: seq<string>)
      ensures parameters == ParserFlags(filters, fromStdin)
    {
      // The flag each condition contributes, and what the pushes have built after each step.
      ghost var p0, p1, p2, p3 := Pick(fromStdin, "-stdin"), Pick(filters.binary, "-binary"),
        Pick(filters.labels, "-unused_labels"), Pick(filters.directives, "-directives");
      ghost var p4, p5, p6 := Pick(filters.commentOnly, "-comment_only"), Pick(filters.trim, "-whitespace"),
        Pick(filters.libraryCode, "-library_functions");
      parameters := [];
      if fromStdin {
        parameters := parameters + ["-stdin"];
      }
      assert parameters == p0;
      if filters.binary {
        parameters := parameters + ["-binary"];
      }
      assert parameters == p0 + p1;
      if filters.labels {
        parameters := parameters + ["-unused_labels"];
      }
      assert parameters == p0 + p1 + p2;
      if filters.directives {
        parameters := parameters + ["-directives"];
      }
      assert parameters == p0 + p1 + p2 + p3;
      if filters.commentOnly {
        parameters := parameters + ["-comment_only"];
      }
      assert parameters == p0 + p1 + p2 + p3 + p4;
      if filters.trim {
        parameters := parameters + ["-whitespace"];
      }
      assert parameters == p0 + p1 + p2 + p3 + p4 + p5;
      if filters.libraryCode {
        parameters := parameters + ["-library_functions"];
      }
      assert parameters == p0 + p1 + p2 + p3 + p4 + p5 + p6;
      ParserFlagsExpanded(filters, fromStdin);
    }

    /**
     * `writeStarterScriptObjdump`: the launcher script written into the build folder with
     * mode 0o777; the promise resolves to the masked script path whether or not the write succeeds.
     */
    method WriteStarterScriptObjdump(buildfolder: string, filters: Filters) returns (write: FileWrite, masked: string)
      ensures write.path == host.join(buildfolder, StarterScriptName)
      ensures write.content == StarterScript(objdumperPath, parserPath, filters)
      ensures write.mode == StarterScriptMode
      ensures masked == host.maskRootdir(write.path)
    {
      var scriptFilepath := host.join(buildfolder, StarterScriptName);
      write := FileWrite(scriptFilepath, StarterScript(objdumperPath, parserPath, filters), StarterScriptMode);
      masked := host.maskRootdir(scriptFilepath);
    }

    /** `parseAsmExecResult`: copies the record, assigns the decoded answer over it, deletes the two streams. */
    method ParseAsmExecResult(execResult: ExecRecord) returns (r: Result<map<string, Value>>)
      ensures r == ParsedAsm(host.decodeJson, execResult)
    {
      var decoded := host.decodeJson(execResult["stdout"].s);
      if decoded.Err? {
        return Err(decoded.error);
      }
      var result: map<string, Value> := map[];
      result := result + execResult;
      result := result + OwnFields(decoded.value);
      result := result - {"stdout"};
      result := result - {"stderr"};
      assert result == (execResult + OwnFields(decoded.value)) - {"stdout", "stderr"};
      r := Ok(result);
    }

    /**
     * `objdumpAndParseAssembly`: writes the launcher script, then runs it from the build folder
     * on the masked objdump arguments and parses what it prints.
     */
    method ObjdumpAndParseAssembly(buildfolder: string, objdumpArgs: seq<string>, filters: Filters)
      returns (write: FileWrite, run: Invocation, r: Result<map<string, Value>>)
      ensures write.path == host.join(buildfolder, StarterScriptName)
      ensures write.content == StarterScript(objdumperPath, parserPath, filters) && write.mode == StarterScriptMode
      ensures run.program == "./" + StarterScriptName
      ensures |run.args| == |objdumpArgs|
      ensures forall i :: 0 <= i < |objdumpArgs| ==> run.args[i] == host.maskRootdir(objdumpArgs[i])
      ensures run.options == ExecOptions(None, Some(buildfolder), Some(host.env))
      ensures r == ParsedAsm(host.decodeJson, host.exec(run.program, run.args, run.options))
    {
      var masked := seq(|objdumpArgs|, i requires 0 <= i < |objdumpArgs| => host.maskRootdir(objdumpArgs[i]));
      var scriptPath;
      write, scriptPath := WriteStarterScriptObjdump(buildfolder, filters);
      var execOptions := ExecOptions(None, Some(buildfolder), Some(host.env));
      run := Invocation("./" + StarterScriptName, masked, execOptions);
      var execResult := host.exec(run.program, run.args, run.options);
      r := ParseAsmExecResult(execResult);
    }

    /** `parseAssembly`: runs the parser itself on a file, with the flags for file input and the path last. */
    method ParseAssembly(filepath: string, filters: Filters) returns (run: Invocation, r: Result<map<string, Value>>)
      ensures run.program == parserPath
      ensures run.args == ParserFlags(filters, false) + [filepath]
      ensures run.options == ExecOptions(None, None, Some(host.env))
      ensures r == ParsedAsm(host.decodeJson, host.exec(run.program, run.args, run.options))
    {
      var execOptions := ExecOptions(None, None, Some(host.env));
      var parserArgs := GetParserArguments(filters, false);
      parserArgs := parserArgs + [filepath];
      run := Invocation(parserPath, parserArgs, execOptions);
      var execResult := host.exec(run.program, run.args, run.options);
      r := ParseAsmExecResult(execResult);
    }
  }

  /** A file given to the parser directly is the last argument, and no flag before it asks for standard input. */
  lemma ParseAssemblyArgs(filters: Filters, filepath: string)
    ensures (ParserFlags(filters, false) + [filepath])[|ParserFlags(filters, false)|] == filepath
    ensures "-stdin" !in (ParserFlags(filters, false) + [filepath])[..|ParserFlags(filters, false)|]
  {
    StdinFirst(filters, false);
    assert (ParserFlags(filters, false) + [filepath])[..|ParserFlags(filters, false)|] == ParserFlags(filters, false);
  }
}
