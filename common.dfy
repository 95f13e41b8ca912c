/** Types shared by the CUDA toolchain policy and the external-parser adapter. */
module Common {

  datatype Option<T> = None | Some(value: T)

  /** Outcome of an operation that may reject (a thrown error or a rejected promise). */
  datatype Result<T> = Ok(value: T) | Err(error: string) {
    predicate IsFailure() {
      Err?
    }

    function PropagateFailure<U>(): Result<U>
      requires Err?
    {
      Err(error)
    }

    function Extract(): T
      requires Ok?
    {
      value
    }
  }

  /** A JavaScript value as it can appear in a result object (numbers are integers here). */
  datatype Value =
    | Undefined
    | Null
    | Bool(b: bool)
    | Num(n: int)
    | Str(s: string)
    | Arr(elems: seq<Value>)
    | Obj(fields: map<string, Value>)

  /** The boolean output filters of a compilation request; an absent field is `false`. */
  datatype Filters = Filters(
    execute: bool,
    binary: bool,
    intel: bool,
    demangle: bool,
    labels: bool,
    directives: bool,
    commentOnly: bool,
    trim: bool,
    libraryCode: bool)

  /** The options object handed to the process-execution primitive. */
  datatype ExecOptions = ExecOptions(
    maxOutput: Option<nat>,
    customCwd: Option<string>,
    env: Option<map<string, string>>)

  /** A snapshot of the job's files: directory listings and UTF-8 file contents by path. */
  datatype FileSystem = FileSystem(listing: map<string, seq<string>>, contents: map<string, string>)

  /** `fs.readdir`: rejects when the directory does not exist. */
  function ReadDir(fs: FileSystem, dir: string): (r: Result<seq<string>>)
    ensures r.Ok? <==> dir in fs.listing
    ensures r.Ok? ==> r.value == fs.listing[dir]
  {
    if dir in fs.listing then Ok(fs.listing[dir]) else Err("ENOENT: no such directory, scandir '" + dir + "'")
  }

  /** `fs.readFile(path, 'utf8')`: rejects when the file does not exist. */
  function ReadFile(fs: FileSystem, path: string): (r: Result<string>)
    ensures r.Ok? <==> path in fs.contents
    ensures r.Ok? ==> r.value == fs.contents[path]
  {
    if path in fs.contents then Ok(fs.contents[path]) else Err("ENOENT: no such file, open '" + path + "'")
  }
}
