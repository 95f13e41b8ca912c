/**
 * The CUDA toolchain policy of `lib/compilers/nvcc.js`: the nvcc command line,
 * the optimisation-report switch, the version-gated nvdisasm invocation, the
 * choice of the primary asm value, and the extraction of per-architecture device
 * code (PTX text and disassembled SASS) into the `devices` map of a result.
 */
module Nvcc {
  import opened Common
  import opened Strings

  // ---------------------------------------------------------------------------
  // Disassembler version gate

  /** A release version (major, minor, patch); pre-release and build parts are not modelled. */
  datatype Version = Version(major: nat, minor: nat, patch: nat)

  /** Version precedence of section 11 of Semantic Versioning 2.0.0, on release versions. */
  predicate VersionLess(a: Version, b: Version) {
    || a.major < b.major
    || (a.major == b.major && a.minor < b.minor)
    || (a.major == b.major && a.minor == b.minor && a.patch < b.patch)
  }

  /** From this nvdisasm version on, the disassembly is asked for with `-hex`. */
  const HexThreshold := Version(11, 0, 0)

  /** The arguments nvdisasm is run with on one cubin file. */
  function DisasmArgs(file: string, version: Version): (args: seq<string>)
    ensures |args| >= 3 && args[..3] == [file, "-c", "-g"]
    ensures |args| == 3 <==> VersionLess(version, HexThreshold)
    ensures |args| == 4 <==> !VersionLess(version, HexThreshold)
    ensures |args| == 4 ==> args[3] == "-hex"
  {
    if VersionLess(version, HexThreshold) then [file, "-c", "-g"] else [file, "-c", "-g", "-hex"]
  }

  /** Whether `-hex` is passed depends on the major version alone: every 11.x.y and later has it. */
  lemma HexFlagIffMajor(file: string, version: Version)
    ensures |DisasmArgs(file, version)| == 4 <==> version.major >= 11
  {
  }

  /** 10.2.0 is run without `-hex`, 11.0.0 with it. */
  lemma DisasmArgsAtBoundary(file: string)
    ensures DisasmArgs(file, Version(10, 2, 0)) == [file, "-c", "-g"]
    ensures DisasmArgs(file, Version(11, 0, 0)) == [file, "-c", "-g", "-hex"]
  {
  }

  /** Version precedence is a strict total order. */
  lemma VersionLessIsStrictTotalOrder(a: Version, b: Version, c: Version)
    ensures !VersionLess(a, a)
    ensures VersionLess(a, b) && VersionLess(b, c) ==> VersionLess(a, c)
    ensures a == b || VersionLess(a, b) || VersionLess(b, a)
  {
  }

  /** Once a version is run with `-hex`, every later version is too. */
  lemma HexFlagMonotone(file: string, v: Version, w: Version)
    requires |DisasmArgs(file, v)| == 4
    requires !VersionLess(w, v)
    ensures |DisasmArgs(file, w)| == 4
  {
    VersionLessIsStrictTotalOrder(w, v, HexThreshold);
  }

  /** The asm that stands in for the output of a disassembler that exited with `code`. */
  function NoOutputPlaceholder(tool: string, code: int): string {
    "<No output: " + tool + " returned " + IntToString(code) + ">"
  }

  /** The placeholder for exit code 1 of nvdisasm. */
  lemma NoOutputPlaceholderExample()
    ensures NoOutputPlaceholder("nvdisasm", 1) == "<No output: nvdisasm returned 1>"
  {
    assert NatToString(1) == "1";
  }

  /** The placeholder embeds the exit code recoverably: different codes give different texts. */
  lemma NoOutputPlaceholderInjective(tool: string, c1: int, c2: int)
    requires NoOutputPlaceholder(tool, c1) == NoOutputPlaceholder(tool, c2)
    ensures c1 == c2
  {
    var prefix := "<No output: " + tool + " returned ";
    var p1, p2 := NoOutputPlaceholder(tool, c1), NoOutputPlaceholder(tool, c2);
    assert p1 == prefix + IntToString(c1) + ">";
    assert p2 == prefix + IntToString(c2) + ">";
    assert IntToString(c1) == p1[|prefix|..|p1| - 1];
    assert IntToString(c2) == p2[|prefix|..|p2| - 1];
    IntToStringInjective(c1, c2);
  }

  // ---------------------------------------------------------------------------
  // Optimisation report

  /**
   * Whether the user asked for an optimisation report: the generic check of the
   * base compiler (passed in as `baseRequested`) or either nvcc spelling of the flag.
   */
  function OptOutputRequested(baseRequested: bool, options: seq<string>): (r: bool)
    ensures baseRequested ==> r
    ensures "--optimization-info" in options ==> r
    ensures "-opt-info" in options ==> r
    ensures r ==> baseRequested || exists i :: 0 <= i < |options| && options[i] in {"--optimization-info", "-opt-info"}
  {
    baseRequested || "--optimization-info" in options || "-opt-info" in options
  }

  // ---------------------------------------------------------------------------
  // Primary asm

  /**
   * The asm value stored from the resolved output: a string as it is, otherwise its
   * `asm` property (undefined when absent); reading a property of null or undefined throws.
   */
  function SelectAsm(resolved: Value): (r: Result<Value>)
    ensures r.Err? <==> resolved.Undefined? || resolved.Null?
    ensures resolved.Str? ==> r == Ok(resolved)
    ensures resolved.Obj? && "asm" in resolved.fields ==> r == Ok(resolved.fields["asm"])
    ensures r.Ok? && !resolved.Str? && !(resolved.Obj? && "asm" in resolved.fields) ==> r == Ok(Undefined)
  {
    match resolved
    case Undefined => Err("TypeError: Cannot read properties of undefined (reading 'asm')")
    case Null => Err("TypeError: Cannot read properties of null (reading 'asm')")
    case Str(_) => Ok(resolved)
    case Obj(fields) => Ok(if "asm" in fields then fields["asm"] else Undefined)
    case _ => Ok(Undefined)
  }

  // ---------------------------------------------------------------------------
  // Device artifacts

  datatype DeviceKind = PTX | SASS

  function KindLabel(kind: DeviceKind): string {
    match kind
    case PTX => "PTX"
    case SASS => "SASS"
  }

  /** Keeps `.ptx` and `.cubin` files; a `.ptx` file is PTX, a kept file that is not is SASS. */
  function KindOf(name: string): (kind: Option<DeviceKind>)
    ensures kind.Some? <==> EndsWith(name, ".ptx") || EndsWith(name, ".cubin")
    ensures kind == Some(PTX) <==> EndsWith(name, ".ptx")
  {
    if EndsWith(name, ".ptx") || EndsWith(name, ".cubin") then
      Some(if EndsWith(name, ".ptx") then PTX else SASS)
    else
      None
  }

  /** No name has both suffixes, so every kept file resolves to exactly one kind. */
  lemma SuffixesExclusive(name: string)
    ensures !(EndsWith(name, ".ptx") && EndsWith(name, ".cubin"))
    ensures KindOf(name) == Some(SASS) <==> EndsWith(name, ".cubin")
  {
    if EndsWith(name, ".ptx") {
      assert name[|name| - 1] == ".ptx"[3];
    }
  }

  /** The dot-separated segments between the first and the last one (`slice(1, -1)`). */
  function Middle(parts: seq<string>): (mid: seq<string>)
    ensures |mid| == if |parts| < 2 then 0 else |parts| - 2
    ensures forall i :: 0 <= i < |mid| ==> mid[i] == parts[i + 1]
  {
    if |parts| < 2 then [] else parts[1..|parts| - 1]
  }

  /** The architecture and code part of a file name: its middle segments joined by ", ". */
  function ArchAndCode(name: string): string {
    Join(Middle(Split(name, '.')), ", ")
  }

  /** The key of a device artifact in the `devices` map. */
  function DeviceKey(kind: DeviceKind, name: string): (key: string)
    ensures KindLabel(kind) <= key
    ensures key == KindLabel(kind) <==> ArchAndCode(name) == ""
  {
    var arch := ArchAndCode(name);
    KindLabel(kind) + (if arch != "" then " (" + ToLower(arch) + ")" else "")
  }

  /** A PTX artifact and a SASS artifact never share a key. */
  lemma DeviceKeyDeterminesKind(a: string, b: string)
    ensures DeviceKey(PTX, a) != DeviceKey(SASS, b)
  {
    var ka, kb := DeviceKey(PTX, a), DeviceKey(SASS, b);
    assert ka[0] == 'P';
    assert kb[0] == 'S';
  }

  /** The part in parentheses is lower case; the kind tag keeps its capitals. */
  lemma DeviceKeyLowercase(kind: DeviceKind, name: string)
    ensures forall i :: |KindLabel(kind)| <= i < |DeviceKey(kind, name)| ==> !IsUpper(DeviceKey(kind, name)[i])
  {
    var arch := ArchAndCode(name);
    var key := DeviceKey(kind, name);
    var tag := KindLabel(kind);
    if arch != "" {
      var low := ToLower(arch);
      assert key == tag + " (" + low + ")";
      forall i | |tag| <= i < |key|
        ensures !IsUpper(key[i])
      {
        if |tag| + 2 <= i < |tag| + 2 + |low| {
          assert key[i] == low[i - |tag| - 2];
        }
      }
    }
  }

  /** The first segment (the kernel's file stem) never influences the key. */
  lemma DeviceKeyIgnoresStem(kind: DeviceKind, stem1: string, stem2: string, rest: string)
    requires '.' !in stem1 && '.' !in stem2
    ensures DeviceKey(kind, stem1 + "." + rest) == DeviceKey(kind, stem2 + "." + rest)
  {
    var tail := Split(rest, '.');
    SplitCons(stem1, '.', rest);
    SplitCons(stem2, '.', rest);
    assert Middle(Split(stem1 + "." + rest, '.')) == tail[..|tail| - 1];
    assert Middle(Split(stem2 + "." + rest, '.')) == tail[..|tail| - 1];
  }

  /** For a name made of dot-free segments, the architecture part is the inner segments joined by ", ". */
  lemma ArchAndCodeOfSegments(parts: seq<string>)
    requires |parts| >= 2
    requires forall i :: 0 <= i < |parts| ==> '.' !in parts[i]
    ensures ArchAndCode(Join(parts, ".")) == Join(parts[1..|parts| - 1], ", ")
  {
    SplitJoin(parts, '.');
  }

  /**
   * For a name made of dot-free segments, the key is the kind tag followed, when the inner
   * segments join to a non-empty text, by that text lowered and in parentheses.
   */
  lemma DeviceKeyOfSegments(kind: DeviceKind, parts: seq<string>)
    requires |parts| >= 2
    requires forall i :: 0 <= i < |parts| ==> '.' !in parts[i]
    ensures var arch := Join(parts[1..|parts| - 1], ", ");
            DeviceKey(kind, Join(parts, ".")) == KindLabel(kind) + (if arch == "" then "" else " (" + ToLower(arch) + ")")
  {
    ArchAndCodeOfSegments(parts);
  }

  /** Two files share a key, and so overwrite each other, iff they have the same kind and the same lowered architecture part. */
  lemma DeviceKeyCollision(k1: DeviceKind, n1: string, k2: DeviceKind, n2: string)
    ensures DeviceKey(k1, n1) == DeviceKey(k2, n2) <==> k1 == k2 && ToLower(ArchAndCode(n1)) == ToLower(ArchAndCode(n2))
  {
    var a1, a2 := ArchAndCode(n1), ArchAndCode(n2);
    var key1, key2 := DeviceKey(k1, n1), DeviceKey(k2, n2);
    if k1 != k2 {
      if k1 == PTX {
        DeviceKeyDeterminesKind(n1, n2);
      } else {
        DeviceKeyDeterminesKind(n2, n1);
      }
    } else {
      var tag := KindLabel(k1);
      if a1 != "" && a2 != "" {
        assert key1 == tag + " (" + ToLower(a1) + ")";
        assert key2 == tag + " (" + ToLower(a2) + ")";
        assert ToLower(a1) == key1[|tag| + 2..|key1| - 1];
        assert ToLower(a2) == key2[|tag| + 2..|key2| - 1];
      } else if a1 != "" {
        assert |key1| > |tag| && key2 == tag;
        assert |ToLower(a1)| > 0 && ToLower(a2) == "";
      } else if a2 != "" {
        assert |key2| > |tag| && key1 == tag;
        assert |ToLower(a2)| > 0 && ToLower(a1) == "";
      }
    }
  }

  /** `kernel.ptx` is PTX and keyed `PTX`: no parenthesised part. */
  lemma DeviceKeyPtxExample()
    ensures KindOf("kernel.ptx") == Some(PTX)
    ensures DeviceKey(PTX, "kernel.ptx") == "PTX"
  {
    assert "kernel.ptx" == Join(["kernel", "ptx"], ".");
    ArchAndCodeOfSegments(["kernel", "ptx"]);
  }

  /** `kernel.sm_75.cubin` is SASS and keyed `SASS (sm_75)`. */
  lemma DeviceKeySassExample(name: string)
    requires name == "kernel.sm_75.cubin"
    ensures KindOf(name) == Some(SASS)
    ensures DeviceKey(SASS, name) == "SASS (sm_75)"
  {
    assert name == Join(["kernel", "sm_75", "cubin"], ".");
    ArchAndCodeOfSegments(["kernel", "sm_75", "cubin"]);
    assert ToLower("sm_75") == "sm_75";
  }

  /** A capitalised architecture is lowered in the key: `k.SM_75.cubin` is keyed `SASS (sm_75)`. */
  lemma DeviceKeyLowersArch(name: string)
    requires name == "k.SM_75.cubin"
    ensures KindOf(name) == Some(SASS)
    ensures DeviceKey(SASS, name) == "SASS (sm_75)"
  {
    assert name == Join(["k", "SM_75", "cubin"], ".");
    ArchAndCodeOfSegments(["k", "SM_75", "cubin"]);
    assert ToLower("SM_75") == "sm_75";
  }

  // ---------------------------------------------------------------------------
  // Collaborators outside this file

  /** What one run of a process reports. */
  datatype ExecOutcome = ExecOutcome(code: int, stdout: string, execTime: nat)

  /**
   * The collaborators of the compiler class that are defined elsewhere: the path
   * module, the base compiler's hooks, the process runner and the asm parsers.
   */
  datatype Host = Host(
    filename: string -> string,
    dirname: string -> string,
    basename: string -> string,
    join: (string, string) -> string,
    exec: (string, seq<string>, ExecOptions) -> ExecOutcome,
    postProcessObjdumpOutput: string -> string,
    objdump: (string, nat, Filters) -> Value,
    processOptOutput: string -> Value,
    deviceParse: (Value, Filters) -> map<string, Value>,
    postProcessAsm: (map<string, Value>, Filters) -> Value)

  /** The immutable description of one nvcc installation. */
  datatype Toolchain = Toolchain(nvdisasm: string, version: Version, maxAsmSize: nat, host: Host)

  /** The nvdisasm run on `file` with working directory `cwd`. */
  function DisasmRun(tc: Toolchain, file: string, cwd: Option<string>, maxOutput: nat): ExecOutcome {
    tc.host.exec(tc.nvdisasm, DisasmArgs(file, tc.version), ExecOptions(Some(maxOutput), cwd, None))
  }

  /** The asm text nvdisasm yields: the post-processed output, or the placeholder on a nonzero exit. */
  function DisasmText(tc: Toolchain, run: ExecOutcome): (text: string)
    ensures run.code != 0 ==> text == NoOutputPlaceholder(tc.host.basename(tc.nvdisasm), run.code)
    ensures run.code == 0 ==> text == tc.host.postProcessObjdumpOutput(run.stdout)
  {
    if run.code == 0 then tc.host.postProcessObjdumpOutput(run.stdout)
    else NoOutputPlaceholder(tc.host.basename(tc.nvdisasm), run.code)
  }

  /** The filters a device artifact is parsed with: the request's, with `binary` set for SASS. */
  function DeviceFilters(filters: Filters, kind: DeviceKind): (f: Filters)
    ensures f.binary <==> kind == SASS
    ensures f.(binary := filters.binary) == filters
  {
    filters.(binary := kind == SASS)
  }

  /** The raw asm of one artifact: the PTX file's text, or the disassembly of the cubin. */
  function DeviceAsm(tc: Toolchain, dir: string, name: string, kind: DeviceKind, fs: FileSystem): Result<Value> {
    var path := tc.host.join(dir, name);
    match kind
    case PTX =>
      var text :- ReadFile(fs, path);
      Ok(Str(text))
    case SASS =>
      Ok(Str(DisasmText(tc, DisasmRun(tc, path, Some(dir), tc.maxAsmSize))))
  }

  /** The entry stored for one artifact: the parsed asm, marked cacheable iff `demangle`, post-processed. */
  function DeviceEntry(tc: Toolchain, asm: Value, kind: DeviceKind, filters: Filters): Value {
    var f := DeviceFilters(filters, kind);
    tc.host.postProcessAsm(map["okToCache" := Bool(filters.demangle)] + tc.host.deviceParse(asm, f), f)
  }

  /** Adds the entry of file `name` (if it is kept) to the entries `acc` found so far. */
  function AddEntry(tc: Toolchain, dir: string, acc: map<string, Value>, name: string, filters: Filters, fs: FileSystem)
    : Result<map<string, Value>>
  {
    match KindOf(name)
    case None => Ok(acc)
    case Some(kind) =>
      var asm :- DeviceAsm(tc, dir, name, kind, fs);
      Ok(acc[DeviceKey(kind, name) := DeviceEntry(tc, asm, kind, filters)])
  }

  /**
   * The entries contributed by the files `names` of directory `dir`, taken in order, a later
   * file overwriting an earlier one with the same key; the first unreadable PTX file is an error.
   */
  function Entries(tc: Toolchain, dir: string, names: seq<string>, filters: Filters, fs: FileSystem): Result<map<string, Value>>
    decreases |names|
  {
    if names == [] then Ok(map[])
    else
      var acc :- Entries(tc, dir, names[..|names| - 1], filters, fs);
      AddEntry(tc, dir, acc, names[|names| - 1], filters, fs)
  }

  /** One more file of a listing: its entry is added to those of the files before it. */
  lemma EntriesStep(tc: Toolchain, dir: string, names: seq<string>, i: nat, filters: Filters, fs: FileSystem)
    requires i < |names|
    requires Entries(tc, dir, names[..i], filters, fs).Ok?
    ensures Entries(tc, dir, names[..i + 1], filters, fs)
         == AddEntry(tc, dir, Entries(tc, dir, names[..i], filters, fs).value, names[i], filters, fs)
  {
    assert names[..i + 1][..i] == names[..i];
  }

  /** A listing whose entries exist: those of all but its last file exist, and the last file's entry is added to them. */
  lemma EntriesLast(tc: Toolchain, dir: string, names: seq<string>, filters: Filters, fs: FileSystem)
    requires names != []
    requires Entries(tc, dir, names, filters, fs).Ok?
    ensures Entries(tc, dir, names[..|names| - 1], filters, fs).Ok?
    ensures Entries(tc, dir, names, filters, fs)
         == AddEntry(tc, dir, Entries(tc, dir, names[..|names| - 1], filters, fs).value, names[|names| - 1], filters, fs)
  {
  }

  /** The key a file is stored under, if it is kept. */
  function KeyOf(name: string): (key: Option<string>)
    ensures key.Some? <==> KindOf(name).Some?
  {
    match KindOf(name)
    case None => None
    case Some(kind) => Some(DeviceKey(kind, name))
  }

  /** Whether some element of `xs` is mapped to `Some(k)` by `f`. */
  ghost predicate Occurs<T>(xs: seq<T>, f: T -> Option<string>, k: string) {
    exists i :: 0 <= i < |xs| && f(xs[i]) == Some(k)
  }

  /** `k` occurs in `xs` iff it occurs before the last element or is the last element's image. */
  lemma OccursLast<T>(xs: seq<T>, f: T -> Option<string>, k: string)
    requires xs != []
    ensures Occurs(xs, f, k) <==> Occurs(xs[..|xs| - 1], f, k) || f(xs[|xs| - 1]) == Some(k)
  {
    var n := |xs| - 1;
    if Occurs(xs, f, k) {
      var i :| 0 <= i < |xs| && f(xs[i]) == Some(k);
      if i < n {
        assert xs[..n][i] == xs[i];
      }
    }
    if Occurs(xs[..n], f, k) {
      var i :| 0 <= i < n && f(xs[..n][i]) == Some(k);
      assert xs[i] == xs[..n][i];
    }
  }

  /** Whether some file of `names` is stored under `key`. */
  ghost predicate HasKey(names: seq<string>, key: string) {
    Occurs(names, KeyOf, key)
  }

  lemma AddEntryKeys(tc: Toolchain, dir: string, acc: map<string, Value>, name: string, filters: Filters, fs: FileSystem)
    requires AddEntry(tc, dir, acc, name, filters, fs).Ok?
    ensures forall k :: k in AddEntry(tc, dir, acc, name, filters, fs).value <==> k in acc || KeyOf(name) == Some(k)
  {
  }

  /** A kept file's entry is stored under its key. */
  lemma AddEntryStores(tc: Toolchain, dir: string, acc: map<string, Value>, name: string, kind: DeviceKind, filters: Filters, fs: FileSystem)
    requires AddEntry(tc, dir, acc, name, filters, fs).Ok?
    requires KindOf(name) == Some(kind)
    ensures DeviceAsm(tc, dir, name, kind, fs).Ok?
    ensures AddEntry(tc, dir, acc, name, filters, fs).value
         == acc[DeviceKey(kind, name) := DeviceEntry(tc, DeviceAsm(tc, dir, name, kind, fs).value, kind, filters)]
  {
  }

  /** Adding a file leaves the value under every other key as it was. */
  lemma AddEntryKeeps(tc: Toolchain, dir: string, acc: map<string, Value>, name: string, k: string, filters: Filters, fs: FileSystem)
    requires AddEntry(tc, dir, acc, name, filters, fs).Ok?
    requires k in acc && KeyOf(name) != Some(k)
    ensures k in AddEntry(tc, dir, acc, name, filters, fs).value
    ensures AddEntry(tc, dir, acc, name, filters, fs).value[k] == acc[k]
  {
  }

  /** The entries have exactly the keys derived from the kept files. */
  lemma {:induction false} EntriesKeys(tc: Toolchain, dir: string, names: seq<string>, filters: Filters, fs: FileSystem)
    requires Entries(tc, dir, names, filters, fs).Ok?
    ensures forall k :: k in Entries(tc, dir, names, filters, fs).value <==> HasKey(names, k)
    decreases |names|
  {
    if names != [] {
      var n := |names| - 1;
      EntriesLast(tc, dir, names, filters, fs);
      EntriesKeys(tc, dir, names[..n], filters, fs);
      AddEntryKeys(tc, dir, Entries(tc, dir, names[..n], filters, fs).value, names[n], filters, fs);
      forall k {
        OccursLast(names, KeyOf, k);
      }
    }
  }

  /** Without kept files there are no entries, so `devices` is left as it was. */
  lemma {:induction false} EntriesNone(tc: Toolchain, dir: string, names: seq<string>, filters: Filters, fs: FileSystem)
    requires forall i :: 0 <= i < |names| ==> KindOf(names[i]).None?
    ensures Entries(tc, dir, names, filters, fs) == Ok(map[])
    decreases |names|
  {
    if names != [] {
      EntriesNone(tc, dir, names[..|names| - 1], filters, fs);
    }
  }

  /**
   * The value under a kept file's key is that file's entry when no later kept file derives
   * the same key.
   */
  lemma {:induction false} EntriesValue(tc: Toolchain, dir: string, names: seq<string>, filters: Filters, fs: FileSystem, j: nat, kind: DeviceKind)
    requires Entries(tc, dir, names, filters, fs).Ok?
    requires j < |names| && KindOf(names[j]) == Some(kind)
    requires forall i :: j < i < |names| ==> KeyOf(names[i]) != KeyOf(names[j])
    ensures DeviceAsm(tc, dir, names[j], kind, fs).Ok?
    ensures DeviceKey(kind, names[j]) in Entries(tc, dir, names, filters, fs).value
    ensures Entries(tc, dir, names, filters, fs).value[DeviceKey(kind, names[j])]
         == DeviceEntry(tc, DeviceAsm(tc, dir, names[j], kind, fs).value, kind, filters)
    decreases |names|
  {
    var n := |names| - 1;
    var init := names[..n];
    EntriesLast(tc, dir, names, filters, fs);
    var acc := Entries(tc, dir, init, filters, fs).value;
    if j < n {
      assert init[j] == names[j];
      forall i | j < i < |init|
        ensures KeyOf(init[i]) != KeyOf(init[j])
      {
        assert init[i] == names[i];
      }
      EntriesValue(tc, dir, init, filters, fs, j, kind);
      AddEntryKeeps(tc, dir, acc, names[n], DeviceKey(kind, names[j]), filters, fs);
    } else {
      AddEntryStores(tc, dir, acc, names[n], kind, filters, fs);
    }
  }

  /** Once a prefix of the listing fails, the whole listing fails with the same error. */
  lemma {:induction false} EntriesErrorPersists(tc: Toolchain, dir: string, names: seq<string>, k: nat, filters: Filters, fs: FileSystem)
    requires k <= |names|
    requires Entries(tc, dir, names[..k], filters, fs).Err?
    ensures Entries(tc, dir, names, filters, fs) == Entries(tc, dir, names[..k], filters, fs)
    decreases |names| - k
  {
    if k < |names| {
      assert names[..k + 1][..k] == names[..k];
      EntriesErrorPersists(tc, dir, names, k + 1, filters, fs);
    } else {
      assert names[..k] == names;
    }
  }

  /** Every `.ptx` file of the listing can be read; `.cubin` files need nothing, since nvdisasm never fails them. */
  predicate PtxReadable(tc: Toolchain, dir: string, names: seq<string>, fs: FileSystem) {
    forall i :: 0 <= i < |names| && KindOf(names[i]) == Some(PTX) ==> tc.host.join(dir, names[i]) in fs.contents
  }

  /**
   * The entries of a listing exist exactly when all its `.ptx` files can be read: an nvdisasm
   * failure only degrades a SASS entry to its placeholder text.
   */
  lemma {:induction false} EntriesOkIff(tc: Toolchain, dir: string, names: seq<string>, filters: Filters, fs: FileSystem)
    ensures Entries(tc, dir, names, filters, fs).Ok? <==> PtxReadable(tc, dir, names, fs)
    decreases |names|
  {
    if names != [] {
      var n := |names| - 1;
      EntriesOkIff(tc, dir, names[..n], filters, fs);
      forall i | 0 <= i < n
        ensures names[..n][i] == names[i]
      {
      }
    }
  }

  /** Extraction from a directory fails exactly when its listing or one of its `.ptx` files cannot be read. */
  lemma DeviceCodeOkIff(tc: Toolchain, dir: string, filters: Filters, fs: FileSystem)
    ensures DeviceCode(tc, dir, filters, fs).Ok?
        <==> dir in fs.listing && PtxReadable(tc, dir, fs.listing[dir], fs)
  {
    if dir in fs.listing {
      EntriesOkIff(tc, dir, fs.listing[dir], filters, fs);
    }
  }

  /** Writing a key into a merged copy is merging the written map. */
  lemma UpdateOfUnion<K, V>(base: map<K, V>, added: map<K, V>, k: K, v: V)
    ensures (base + added)[k := v] == base + added[k := v]
  {
  }

  /** What `extractDeviceCode` finds in a job directory: the entries of its listing. */
  function DeviceCode(tc: Toolchain, dir: string, filters: Filters, fs: FileSystem): Result<map<string, Value>> {
    var names :- ReadDir(fs, dir);
    Entries(tc, dir, names, filters, fs)
  }

  /** `if (dirPath)`: a missing or empty directory path is falsy. */
  predicate Truthy(dirPath: Option<string>) {
    dirPath.Some? && dirPath.value != ""
  }

  // ---------------------------------------------------------------------------
  // The objects the code mutates

  /** The result object that the compiler's post-processing steps fill in. */
  class CompileResult {
    var asm: Value
    var objdumpTime: Option<nat>
    var devices: map<string, Value>
    var dirPath: Option<string>
    var hasOptOutput: bool
    var optPath: string

    /** The literal `{dirPath}`. */
    constructor (dirPath: Option<string>)
      ensures this.dirPath == dirPath
      ensures asm == Undefined && objdumpTime == None && devices == map[]
      ensures !hasOptOutput && optPath == ""
    {
      this.dirPath := dirPath;
      asm := Undefined;
      objdumpTime := None;
      devices := map[];
      hasOptOutput := false;
      optPath := "";
    }
  }

  class NvccCompiler {
    const tc: Toolchain
    var supportsOptOutput: bool
    var supportsDeviceAsmView: bool

    constructor (tc: Toolchain)
      ensures this.tc == tc
      ensures supportsOptOutput && supportsDeviceAsmView
    {
      this.tc := tc;
      supportsOptOutput := true;
      supportsDeviceAsmView := true;
    }

    /** The nvcc command line for one compilation (`userOptions` plays no part). */
    method OptionsForFilter(filters: Filters, outputFilename: string, userOptions: seq<string>) returns (opts: seq<string>)
      ensures |opts| >= 4 && opts[..4] == ["-o", tc.host.filename(outputFilename), "-g", "-lineinfo"]
      ensures filters.execute ==> |opts| == 4
      ensures !filters.execute ==> |opts| >= 8 && opts[4..8] == ["-c", "-keep", "-keep-dir", tc.host.dirname(outputFilename)]
      ensures |opts| == 9 <==> !filters.execute && !filters.binary
      ensures |opts| == 9 ==> opts[8] == "-Xcompiler=-S"
      ensures |opts| == 4 || |opts| == 8 || |opts| == 9
    {
      opts := ["-o", tc.host.filename(outputFilename), "-g", "-lineinfo"];
      if !filters.execute {
        opts := opts + ["-c", "-keep", "-keep-dir", tc.host.dirname(outputFilename)];
        if !filters.binary {
          opts := opts + ["-Xcompiler=-S"];
        }
      }
    }

    /** Disassembles `outputFilename` into `result.asm`, recording the time only on success. */
    method NvDisasm(outputFilename: string, result: CompileResult, maxOutput: nat)
      modifies result`asm, result`objdumpTime
      ensures var run := DisasmRun(tc, outputFilename, result.dirPath, maxOutput);
        && result.asm == Str(DisasmText(tc, run))
        && result.objdumpTime == (if run.code == 0 then Some(run.execTime) else old(result.objdumpTime))
    {
      var args := DisasmArgs(outputFilename, tc.version);
      var run := tc.host.exec(tc.nvdisasm, args, ExecOptions(Some(maxOutput), result.dirPath, None));
      if run.code == 0 {
        result.objdumpTime := Some(run.execTime);
        result.asm := Str(tc.host.postProcessObjdumpOutput(run.stdout));
      } else {
        result.asm := Str(NoOutputPlaceholder(tc.host.basename(tc.nvdisasm), run.code));
      }
    }

    /**
     * Stores the primary asm in `result.asm` and yields the optimisation report (the empty
     * string when none was produced). A failed read or a null asm value rejects, leaving
     * `result.asm` as it was.
     */
    method PostProcess(result: CompileResult, outputFilename: string, filters: Filters, fs: FileSystem)
      returns (optOutput: Result<Value>)
      modifies result`asm
      ensures var resolved := if filters.binary then Ok(tc.host.objdump(outputFilename, tc.maxAsmSize, filters))
                              else (var text :- ReadFile(fs, outputFilename); Ok(Str(text)));
        && (optOutput.Ok? <==> resolved.Ok? && SelectAsm(resolved.value).Ok?)
        && (optOutput.Ok? ==> result.asm == SelectAsm(resolved.value).value)
        && (optOutput.Err? ==> result.asm == old(result.asm))
      ensures optOutput.Ok? ==> optOutput.value == (if result.hasOptOutput then tc.host.processOptOutput(result.optPath) else Str(""))
      ensures !filters.binary && outputFilename in fs.contents ==> optOutput.Ok? && result.asm == Str(fs.contents[outputFilename])
    {
      var opt := if result.hasOptOutput then tc.host.processOptOutput(result.optPath) else Str("");
      var resolved: Value;
      if filters.binary {
        resolved := tc.host.objdump(outputFilename, tc.maxAsmSize, filters);
      } else {
        var text := ReadFile(fs, outputFilename);
        if text.Err? {
          return Err(text.error);
        }
        resolved := Str(text.value);
      }
      var picked := SelectAsm(resolved);
      if picked.Err? {
        return Err(picked.error);
      }
      result.asm := picked.value;
      optOutput := Ok(opt);
    }

    /** The raw asm of one kept file: the PTX text as read, or nvdisasm's output in a scratch `{dirPath}` result. */
    method ReadDeviceAsm(dir: string, name: string, kind: DeviceKind, fs: FileSystem) returns (asm: Result<Value>)
      ensures asm == DeviceAsm(tc, dir, name, kind, fs)
      ensures kind == SASS ==> asm.Ok?
    {
      var path := tc.host.join(dir, name);
      if kind == PTX {
        var text := ReadFile(fs, path);
        if text.Err? {
          return Err(text.error);
        }
        asm := Ok(Str(text.value));
      } else {
        var scratch := new CompileResult(Some(dir));
        NvDisasm(path, scratch, tc.maxAsmSize);
        asm := Ok(scratch.asm);
      }
    }

    /**
     * Processes the files of a listing in order, adding the entry of every kept file to a
     * copy of `devices`; the first unreadable PTX file makes the whole step fail.
     */
    method CollectDevices(dir: string, files: seq<string>, filters: Filters, fs: FileSystem, devices: map<string, Value>)
      returns (r: Result<map<string, Value>>)
      ensures Entries(tc, dir, files, filters, fs).Err? ==> r == Entries(tc, dir, files, filters, fs)
      ensures Entries(tc, dir, files, filters, fs).Ok? ==> r == Ok(devices + Entries(tc, dir, files, filters, fs).value)
    {
      var found := devices;
      var i := 0;
      while i < |files|
        invariant 0 <= i <= |files|
        invariant Entries(tc, dir, files[..i], filters, fs).Ok?
        invariant found == devices + Entries(tc, dir, files[..i], filters, fs).value
      {
        var name := files[i];
        ghost var acc := Entries(tc, dir, files[..i], filters, fs).value;
        EntriesStep(tc, dir, files, i, filters, fs);
        var kind := KindOf(name);
        if kind.Some? {
          var asm := ReadDeviceAsm(dir, name, kind.value, fs);
          if asm.Err? {
            EntriesErrorPersists(tc, dir, files, i + 1, filters, fs);
            return Err(asm.error);
          }
          var key := DeviceKey(kind.value, name);
          var entry := DeviceEntry(tc, asm.value, kind.value, filters);
          UpdateOfUnion(devices, acc, key, entry);
          found := found[key := entry];
        }
        i := i + 1;
      }
      assert files[..|files|] == files;
      r := Ok(found);
    }

    /**
     * Adds one entry per kept file of the job directory to a copy of `result.devices` and
     * stores the copy; without a job directory, or on an I/O error, `result.devices` is kept.
     */
    method ExtractDeviceCode(result: CompileResult, filters: Filters, fs: FileSystem) returns (outcome: Result<()>)
      modifies result`devices
      ensures !Truthy(result.dirPath) ==> outcome.Ok? && result.devices == old(result.devices)
      ensures Truthy(result.dirPath) && DeviceCode(tc, result.dirPath.value, filters, fs).Ok? ==>
        outcome.Ok? && result.devices == old(result.devices) + DeviceCode(tc, result.dirPath.value, filters, fs).value
      ensures Truthy(result.dirPath) && DeviceCode(tc, result.dirPath.value, filters, fs).Err? ==>
        outcome == Err(DeviceCode(tc, result.dirPath.value, filters, fs).error) && result.devices == old(result.devices)
    {
      var dirPath := result.dirPath;
      var devices := result.devices;
      if !Truthy(dirPath) {
        return Ok(());
      }
      var listing := ReadDir(fs, dirPath.value);
      if listing.Err? {
        return Err(listing.error);
      }
      var found := CollectDevices(dirPath.value, listing.value, filters, fs, devices);
      if found.Err? {
        return Err(found.error);
      }
      result.devices := found.value;
      outcome := Ok(());
    }
  }
}
