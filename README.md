# CUDA toolchain policy and external assembly parser adapter

This project models two back-end components of Compiler Explorer, a service that compiles source code and shows the resulting assembly.

- **The nvcc compiler driver** (`lib/compilers/nvcc.js`) covers:
  - the nvcc command line for a compilation;
  - whether an optimisation report was asked for;
  - the nvdisasm command line, which depends on the version, and the placeholder text used when nvdisasm fails;
  - which value becomes the primary asm of a result;
  - the extraction of per-architecture device code into the `devices` map of a result. Extraction keeps `.ptx` and `.cubin` files, classifies them as PTX or SASS, derives a key such as `SASS (sm_75)` from each file name, and merges the entries into a copy of the old map.
- **The external-parser adapter** (`lib/external-parsers/base.ts`) covers:
  - the parser's command-line flags;
  - the exact text of the launcher script that pipes objdump into the parser;
  - the command lines of its two entry points;
  - the merge of the parser's JSON answer into the execution record, which drops `stdout` and `stderr`.

The project has four modules, one per file:

- `common.dfy` (`Common`): `Option` and `Result`, a JavaScript value type, the filter flags, execution options, and a snapshot of the job's files.
- `strings.dfy` (`Strings`): the JavaScript string operations the code relies on. These are `split` on one character, `join`, `endsWith`, `toLowerCase` and the decimal rendering of integers, with the split/join and print/parse round trips.
- `nvcc.dfy` (`Nvcc`): the nvcc driver. Pure parts are functions with lemmas. The result object the driver mutates is the class `CompileResult`, and the compiler is the class `NvccCompiler`. Its methods are proved against the specification functions `DisasmText`, `SelectAsm`, `DeviceAsm`, `Entries` and `DeviceCode`.
- `external_parser.dfy` (`ExternalParser`): the adapter. The flag list is specified as a mask over the fixed order of the seven flags (`ParserFlags`). The class `ExternalParserBase` builds that list by successive pushes and returns the file it writes and the process it runs as values.

Collaborators whose code is not part of this model are fields of the `Host`, `Toolchain` and `ParserHost` datatypes, and the model never looks inside them. They include:
- the path helpers, the process runner, `objdump` and the device asm parser;
- post-processing, the optimisation-report reader, `JSON.parse` and `maskRootdir`.

## Model

| member | source | states |
|---|---|---|
| Nvcc.NvccCompiler.constructor | lib/compilers/nvcc.js:41-46 | a new nvcc compiler supports the optimisation report and the device asm view |
| Nvcc.NvccCompiler.OptionsForFilter | lib/compilers/nvcc.js:59-68 | the options always begin with `-o <filename> -g -lineinfo`; executing adds nothing more; otherwise `-c -keep -keep-dir <dirname>` follow in that order, and `-Xcompiler=-S` comes last iff the output is not binary; so the length is 4, 8 or 9 |
| Nvcc.OptOutputRequested | lib/compilers/nvcc.js:74-80 | a report is requested iff the base check says so or the options contain `--optimization-info` or `-opt-info` |
| Nvcc.VersionLess | lib/compilers/nvcc.js:91 | `Semver.lt`: a version is below another iff its major is smaller, or the majors agree and the minor is smaller, or both agree and the patch is smaller |
| Nvcc.DisasmArgs | lib/compilers/nvcc.js:91-93 | the arguments are `[file, -c, -g]`, with `-hex` as a fourth exactly when the version is not below 11.0.0 |
| Nvcc.VersionLessIsStrictTotalOrder | lib/compilers/nvcc.js:91 | the version comparison is irreflexive, transitive and total, as semantic-version precedence is |
| Nvcc.HexFlagIffMajor | lib/compilers/nvcc.js:91-93 | `-hex` is passed iff the major version is at least 11 |
| Nvcc.DisasmArgsAtBoundary | lib/compilers/nvcc.js:91-93 | version 10.2.0 runs without `-hex` and 11.0.0 with it |
| Nvcc.HexFlagMonotone | lib/compilers/nvcc.js:91-93 | once a version gets `-hex`, every later version does too |
| Nvcc.DisasmRun | lib/compilers/nvcc.js:95 | nvdisasm is run with `DisasmArgs` for its version, the given output limit and working directory, and no environment of its own |
| Nvcc.NoOutputPlaceholder | lib/compilers/nvcc.js:101 | the placeholder is `<No output: `, the tool's name, ` returned `, the code in decimal, and `>` |
| Nvcc.DisasmText | lib/compilers/nvcc.js:97-102 | exit code 0 gives the post-processed stdout; any other code gives the placeholder naming the tool's base name and the code |
| Nvcc.NoOutputPlaceholderExample | lib/compilers/nvcc.js:101 | nvdisasm exiting with 1 yields exactly `<No output: nvdisasm returned 1>` |
| Nvcc.NoOutputPlaceholderInjective | lib/compilers/nvcc.js:101 | different exit codes yield different placeholders, so the code can be read back |
| Strings.IntToString | lib/compilers/nvcc.js:101 | `${code}`: the decimal digits of the integer without leading zeros, preceded by `-` when it is negative |
| Strings.IntToStringInjective | lib/compilers/nvcc.js:101 | the decimal rendering in the placeholder is injective on integers |
| Strings.ParseNatToString | lib/compilers/nvcc.js:101 | reading the rendered digits back gives the number |
| Nvcc.NvccCompiler.NvDisasm | lib/compilers/nvcc.js:88-104 | runs nvdisasm on the version's arguments with the result's directory as cwd; `asm` becomes the disassembly text; `objdumpTime` becomes the run's time on exit 0 and is left unchanged otherwise |
| Nvcc.SelectAsm | lib/compilers/nvcc.js:120 | a string is stored as is, an object contributes its `asm` property (undefined when absent), and reading `asm` of null or undefined is an error |
| Nvcc.NvccCompiler.PostProcess | lib/compilers/nvcc.js:112-124 | the primary asm comes from objdump for binary output and from the output file otherwise, and is stored through `SelectAsm`; the opt value is the processed report or the empty string; an unreadable file rejects and leaves `asm` unchanged; a readable text file becomes `asm` verbatim |
| Strings.EndsWith | lib/compilers/nvcc.js:142-144 | `endsWith`: the suffix is no longer than the string and equals its last characters |
| Nvcc.KindOf | lib/compilers/nvcc.js:142-144 | a file is kept iff it ends with `.ptx` or `.cubin`, and is PTX iff it ends with `.ptx` |
| Nvcc.SuffixesExclusive | lib/compilers/nvcc.js:142-144 | no name has both suffixes, so a kept file is SASS iff it ends with `.cubin` |
| Nvcc.Middle | lib/compilers/nvcc.js:149 | `slice(1, -1)`: the segments between the first and the last, none when there are fewer than two |
| Strings.Split | lib/compilers/nvcc.js:149 | `split('.')`: the pieces between separators, empty ones included, so `""` gives `[""]`, `a.` gives `["a", ""]` and `a..b` gives `["a", "", "b"]`; there is always at least one piece |
| Strings.Join | lib/compilers/nvcc.js:149 | `join(sep)`: no pieces give the empty string, one piece gives itself, and more pieces are separated by `sep` |
| Strings.SplitPieces | lib/compilers/nvcc.js:149 | the pieces of a split contain no separator, and joining them with it gives back the string |
| Strings.SplitJoin | lib/compilers/nvcc.js:149 | splitting a join of separator-free pieces gives the pieces back |
| Nvcc.ArchAndCodeOfSegments | lib/compilers/nvcc.js:149 | for a name made of dot-free segments, the architecture part is the inner segments joined by `, ` |
| Nvcc.ArchAndCode | lib/compilers/nvcc.js:149 | the segments of the name between its first and last dot, joined by `, `; empty when there are fewer than three segments |
| Nvcc.DeviceKey | lib/compilers/nvcc.js:149-150 | a key starts with its kind tag, and is exactly the tag iff the middle segments join to the empty string (there are none, or a single empty one, as in `k..ptx`) |
| Nvcc.DeviceKeyDeterminesKind | lib/compilers/nvcc.js:150 | a PTX key never equals a SASS key |
| Nvcc.DeviceKeyLowercase | lib/compilers/nvcc.js:150 | everything after the kind tag is lower case |
| Strings.ToLower | lib/compilers/nvcc.js:150 | lowering keeps the length, turns every capital into its own lower-case letter, leaves no capital, and keeps every other character |
| Strings.ToLowerIdempotent | lib/compilers/nvcc.js:150 | lowering twice is lowering once |
| Nvcc.DeviceKeyIgnoresStem | lib/compilers/nvcc.js:149-150 | the file stem before the first dot never influences the key |
| Nvcc.DeviceKeyOfSegments | lib/compilers/nvcc.js:149-150 | for every name made of dot-free segments, the key is the kind tag, followed, when the inner segments joined by `, ` are non-empty, by ` (`, that text lower-cased, and `)` |
| Nvcc.DeviceKeyCollision | lib/compilers/nvcc.js:149-151 | two files get the same key, and so the later overwrites the earlier, iff they have the same kind and their architecture parts agree once lower-cased |
| Nvcc.DeviceKeyPtxExample | lib/compilers/nvcc.js:144-150 | `kernel.ptx` is PTX and keyed `PTX` |
| Nvcc.DeviceKeySassExample | lib/compilers/nvcc.js:144-150 | `kernel.sm_75.cubin` is SASS and keyed `SASS (sm_75)` |
| Nvcc.DeviceKeyLowersArch | lib/compilers/nvcc.js:144-150 | the capitals of the architecture part are lowered: `k.SM_75.cubin` is keyed `SASS (sm_75)` |
| Nvcc.DeviceFilters | lib/compilers/nvcc.js:155-157 | a device artifact is parsed and post-processed with the request's filters, except that `binary` holds iff it is SASS |
| Nvcc.DeviceAsm | lib/compilers/nvcc.js:145-148 | a PTX file's asm is its text read from the joined path, an error when it cannot be read; a SASS file's asm is the nvdisasm text of the joined path, run in the job directory with the `max-asm-size` limit, and never an error |
| Nvcc.DeviceEntry | lib/compilers/nvcc.js:151-158 | the stored value is the post-processed map made of `okToCache` set to `demangle`, overridden by the parsed asm's fields; parse and post-processing both get `DeviceFilters` |
| Nvcc.AddEntry | lib/compilers/nvcc.js:141-159 | a file that is not kept leaves the entries as they are; a kept file's asm error is the result; otherwise its entry is written under its key |
| Nvcc.Entries | lib/compilers/nvcc.js:140-159 | the files of a listing are added in order, starting from no entries, and the first error stops the extraction |
| Nvcc.KeyOf | lib/compilers/nvcc.js:142-150 | a file has a key iff it is kept |
| Nvcc.AddEntryKeys | lib/compilers/nvcc.js:151-159 | adding a file adds its key (if kept) and no other key |
| Nvcc.AddEntryStores | lib/compilers/nvcc.js:151-159 | a kept file's asm is readable, and its entry is stored under its key |
| Nvcc.AddEntryKeeps | lib/compilers/nvcc.js:151-159 | adding a file leaves the value under every other key unchanged |
| Nvcc.EntriesStep | lib/compilers/nvcc.js:140-161 | the entries of one more file are those before it plus that file's entry |
| Nvcc.EntriesKeys | lib/compilers/nvcc.js:140-161 | the merged keys are exactly the keys of the kept files of the listing |
| Nvcc.EntriesValue | lib/compilers/nvcc.js:140-161 | a kept file with no later file of the same key has its asm readable, and its entry is stored under its key |
| Nvcc.EntriesNone | lib/compilers/nvcc.js:141-142 | a listing without `.ptx` or `.cubin` files contributes nothing |
| Nvcc.EntriesErrorPersists | lib/compilers/nvcc.js:140-161 | once a file fails, the whole extraction fails with that error |
| Common.ReadDir | lib/compilers/nvcc.js:138 | `fs.readdir` on the snapshot: it succeeds iff the directory is listed, and then yields that listing |
| Common.ReadFile | lib/compilers/nvcc.js:147 | `fs.readFile` on the snapshot: it succeeds iff the file exists, and then yields its contents |
| Nvcc.PtxReadable | lib/compilers/nvcc.js:141-148 | every `.ptx` file of the listing can be read from the joined path; `.cubin` files impose nothing |
| Nvcc.EntriesOkIff | lib/compilers/nvcc.js:140-159 | the entries of a listing exist iff all its `.ptx` files can be read; an nvdisasm failure never fails the extraction |
| Nvcc.DeviceCodeOkIff | lib/compilers/nvcc.js:138-159 | extraction from a directory fails iff its listing cannot be read or one of its `.ptx` files cannot be read |
| Nvcc.DeviceCode | lib/compilers/nvcc.js:138-159 | the directory's listing is read, an unreadable directory being an error, and its entries are collected |
| Nvcc.Truthy | lib/compilers/nvcc.js:137 | `if (dirPath)`: a missing or empty directory path is falsy, every other path is truthy |
| Nvcc.CompileResult.constructor | lib/compilers/nvcc.js:148 | the scratch result `{dirPath}` has only its directory set |
| Nvcc.NvccCompiler.ReadDeviceAsm | lib/compilers/nvcc.js:145-148 | a PTX file's asm is its text as read; a SASS file's asm is the nvdisasm output from a scratch result in the job directory, which never fails |
| Nvcc.NvccCompiler.CollectDevices | lib/compilers/nvcc.js:140-161 | the loop over the listing yields the old map merged with the listing's entries, or the listing's first error |
| Nvcc.NvccCompiler.ExtractDeviceCode | lib/compilers/nvcc.js:133-165 | without a (non-empty) `dirPath`, `devices` is unchanged; otherwise `devices` becomes the old map merged with the directory's entries, all other keys preserved, or the call rejects and leaves `devices` unchanged. By `Nvcc.DeviceCodeOkIff` it rejects exactly when the listing or a kept `.ptx` file cannot be read, never because nvdisasm exits nonzero |
| ExternalParser.ExternalParserBase.constructor | lib/external-parsers/base.ts:19-25 | the parser path is the `exe` property of the parser's configuration, or empty when it is absent |
| ExternalParser.ExternalParserBase.GetParserArguments | lib/external-parsers/base.ts:27-39 | the pushes yield exactly the flags of `ParserFlags` |
| ExternalParser.ParserFlags | lib/external-parsers/base.ts:27-39 | the flags are those of the fixed seven-flag order whose condition (`fromStdin` and six filters) holds, in that order |
| ExternalParser.ParserFlagsExpanded | lib/external-parsers/base.ts:27-39 | the flag list is one optional flag per condition, in the fixed order |
| ExternalParser.FlagOrderDistinct | lib/external-parsers/base.ts:30-36 | the seven flags are pairwise different |
| ExternalParser.FlagPresentIff | lib/external-parsers/base.ts:30-36 | each flag is present iff its condition (`fromStdin`, `binary`, `labels`, `directives`, `commentOnly`, `trim`, `libraryCode`) holds |
| ExternalParser.StdinFirst | lib/external-parsers/base.ts:30 | with standard input `-stdin` is the first flag; without it `-stdin` is absent |
| ExternalParser.ParserFlagsLength | lib/external-parsers/base.ts:27-39 | the number of flags is the number of true filters, plus one for standard input |
| ExternalParser.ParserFlagsDistinctOrdered | lib/external-parsers/base.ts:27-39 | no flag is passed twice, and the flags keep the fixed order |
| ExternalParser.ParserFlagsKnown | lib/external-parsers/base.ts:27-39 | every flag passed is one of the seven |
| ExternalParser.SelectMember | lib/external-parsers/base.ts:30-36 | an element is selected iff its position's condition holds |
| ExternalParser.SelectLength | lib/external-parsers/base.ts:27-39 | as many elements are selected as conditions hold |
| ExternalParser.SelectDistinct | lib/external-parsers/base.ts:27-39 | selecting from distinct elements gives distinct elements |
| ExternalParser.SelectSubsequence | lib/external-parsers/base.ts:27-39 | a selection keeps the order of the list it selects from |
| ExternalParser.FlagsNoBlanks | lib/external-parsers/base.ts:47 | no flag contains a newline or a space |
| ExternalParser.PipeLine | lib/external-parsers/base.ts:47 | the last line runs `$OBJDUMP "$@"` and pipes it into `$ASMPARSER` with the standard-input flags joined by spaces |
| ExternalParser.StarterScript | lib/external-parsers/base.ts:41-48 | the script is the shebang line, `OBJDUMP=` with the objdump path, `ASMPARSER=` with the parser path, and the pipe line, each ended by a newline |
| ExternalParser.StarterScriptLines | lib/external-parsers/base.ts:41-48 | with newline-free paths, the script is exactly four newline-terminated lines: shebang, `OBJDUMP=`, `ASMPARSER=`, and the pipe line |
| ExternalParser.StarterScriptFlagsRoundTrip | lib/external-parsers/base.ts:47 | splitting the pipe line's flag text at spaces gives back exactly the parser's flags |
| ExternalParser.StarterScriptReadsStdin | lib/external-parsers/base.ts:42-47 | the pipe line always passes `-stdin` first |
| ExternalParser.ExternalParserBase.WriteStarterScriptObjdump | lib/external-parsers/base.ts:50-62 | the script goes to `dump-and-parse.sh` in the build folder with mode 0o777, and the masked path is returned |
| ExternalParser.ParsedAsm | lib/external-parsers/base.ts:64-69 | invalid JSON is an error; otherwise the result has every decoded field, and decoded fields win. It keeps the record's other fields and never has `stdout` or `stderr`, even when the JSON supplied them |
| ExternalParser.OwnFields | lib/external-parsers/base.ts:65 | `Object.assign` copies an object's fields and nothing from a number, boolean or null |
| ExternalParser.ExternalParserBase.ParseAsmExecResult | lib/external-parsers/base.ts:64-69 | the copy, assign and two deletes compute `ParsedAsm` |
| ExternalParser.ExternalParserBase.ObjdumpAndParseAssembly | lib/external-parsers/base.ts:71-83 | writes the launcher script, then runs `./dump-and-parse.sh` from the build folder. It passes the objdump arguments masked one by one, same length and order, with the compiler's environment, and parses the answer |
| ExternalParser.ExternalParserBase.ParseAssembly | lib/external-parsers/base.ts:85-95 | runs the parser itself with the file-input flags followed by the file path and the environment only, and parses the answer |
| ExternalParser.ParseAssemblyArgs | lib/external-parsers/base.ts:90-93 | the file path is the last argument and no argument before it is `-stdin` |

## Left out

- File and process I/O are not performed:
  - `fs.readdir` and `fs.readFile` read a `FileSystem` snapshot, where a missing entry is an error;
  - the process runner, `objdump` and the parsers are functions held by `Host` or `ParserHost`;
  - the launcher script write is returned as a `FileWrite` value. Whether the write succeeds is not modelled: the source resolves with the masked path either way.
- Nvcc.NvccCompiler.CollectDevices: `Promise.all` runs the per-file tasks concurrently, but the model processes files one after another in listing order. When two files derive the same key, the later one in the listing wins; in the source, the one that finishes last wins. When several files fail, the model reports the first one in the listing; the source reports the first to reject.
- Nvcc.NvccCompiler.PostProcess: the processed optimisation report and the objdump result are plain values, so their rejection is not modelled. Timing between the asm write and the report is not modelled either.
- Nvcc.VersionLess: only release versions (major, minor, patch) are compared. `asSafeVer`, pre-release tags and loose parsing belong to code that is not part of this model.
- Strings.ToLower: lowercases ASCII letters only. Unicode case mapping is not modelled.
- `Value.Num` holds integers, because floating-point numbers play no part in these components.
- The base compiler's own report check is the `baseRequested` argument of `Nvcc.OptOutputRequested`. `filename`, `dirname`, `basename`, `join`, `postProcessObjdumpOutput`, `postProcessAsm`, the SASS asm parser, `maskRootdir`, `getEnv` and `JSON.parse` are opaque functions. The `max-asm-size` setting (64 MiB by default) is the `maxAsmSize` field.
- ExternalParser.OwnFields: for an array or string answer, its contract does not state the index-keyed fields that `Object.assign` copies, although the body builds them. The `__proto__` key, which `Object.assign` treats as a prototype assignment, is not singled out.
- A rejection of the process runner itself (as opposed to a nonzero exit code) is not modelled.
- A `devices` property that was undefined starts as the empty map, which is what spreading `undefined` gives.
- Entries are stored by derived key, so `a.ptx` and `b.ptx` both map to `PTX` and leave one entry (`Nvcc.EntriesKeys`, `Nvcc.EntriesValue`).
