/** Loading series records from JSON files: one file, a list of files, and
    every `.json` file of a folder through a fixed thread pool. The file
    system and the JSON parser are parameters, and the record type is
    generic. The pool's life is recorded as a trace of events; the parallel
    parsing itself is not modelled, only the order in which results are
    collected. */
module Loader {
  import opened Wrappers
  import opened Text
  import opened Seqs

  /** What the parser makes of a file's text: a record, Gson's null for an
      empty document, or a syntax error. */
  datatype Parsed<T> = Parsed(record: Option<T>) | Malformed

  /** The file system and the parser: reading a file's text, listing a
      folder's entry paths in directory order, and parsing. */
  datatype Disk<T> = Disk(
    read: string -> Option<string>,
    list: string -> Option<seq<string>>,
    parse: string -> Parsed<T>
  )

  /** The exceptions, with their causes: an I/O failure, a syntax error, the
      pool's refusal of a non-positive size, `Future.get`'s wrapper, and the
      loader's own `RuntimeException` with its message. */
  datatype LoadError =
    | IoFailure
    | SyntaxFailure
    | BadPoolSize
    | Execution(cause: LoadError)
    | Runtime(message: string, cause: LoadError)

  /** What happens to the pool and the listing stream, in order. */
  datatype Event = PoolCreated(threads: int) | Listed | StreamClosed | PoolShutdown | PoolClosed

  /** A folder load's outcome and the events it went through. */
  datatype Run<T> = Run(result: Result<seq<Option<T>>, LoadError>, trace: seq<Event>)

  const DefaultThreads := 4

  /** Reads and parses one file. */
  function Open<T>(disk: Disk<T>, path: string): (r: Result<Option<T>, LoadError>)
    ensures r.Success? <==> disk.read(path).Some? && disk.parse(disk.read(path).value).Parsed?
    ensures r.Success? ==> r.value == disk.parse(disk.read(path).value).record
    ensures r.Failure? ==> r.error in {IoFailure, SyntaxFailure}
  {
    match disk.read(path)
    case None => Failure(IoFailure)
    case Some(text) =>
      match disk.parse(text)
      case Malformed => Failure(SyntaxFailure)
      case Parsed(record) => Success(record)
  }

  /** `load`: the file's record, or a failure naming the file. */
  function Load<T>(disk: Disk<T>, path: string): (r: Result<Option<T>, LoadError>)
    ensures r.Success? <==> Open(disk, path).Success?
    ensures r.Success? ==> r.value == Open(disk, path).value
    ensures r.Failure? ==> r.error == Runtime("Failed to load series from file: " + path, Open(disk, path).error)
  {
    match Open(disk, path)
    case Failure(e) => Failure(Runtime("Failed to load series from file: " + path, e))
    case Success(record) => Success(record)
  }

  /** `loadAll`: the files loaded one after the other; the first failure
      ends the load. */
  function LoadAll<T>(disk: Disk<T>, paths: seq<string>): (r: Result<seq<Option<T>>, LoadError>)
    ensures r.Success? <==> forall i | 0 <= i < |paths| :: Load(disk, paths[i]).Success?
    ensures r.Success? ==> |r.value| == |paths|
                           && forall i | 0 <= i < |paths| :: r.value[i] == Load(disk, paths[i]).value
    ensures r.Failure? ==> exists i | 0 <= i < |paths| ::
                             && (forall j | 0 <= j < i :: Load(disk, paths[j]).Success?)
                             && Load(disk, paths[i]).Failure? && r.error == Load(disk, paths[i]).error
  {
    if paths == [] then Success([])
    else
      match Load(disk, paths[0])
      case Failure(e) => Failure(e)
      case Success(first) =>
        match LoadAll(disk, paths[1..])
        case Failure(e) =>
          assert forall j | 1 <= j < |paths| :: paths[1..][j - 1] == paths[j];
          Failure(e)
        case Success(rest) =>
          assert forall j | 1 <= j < |paths| :: paths[1..][j - 1] == paths[j];
          Success([first] + rest)
  }

  /** The listing's filter: entry paths ending in `.json`. */
  function JsonFiles(entries: seq<string>): (files: seq<string>)
    ensures IsSubsequence(files, entries)
    ensures forall f | f in files :: f in entries && EndsWith(f, ".json")
    ensures forall i | 0 <= i < |entries| && EndsWith(entries[i], ".json") :: entries[i] in files
  {
    var keep := (p: string) => EndsWith(p, ".json");
    FilterSpec(entries, keep);
    assert forall i | 0 <= i < |entries| && keep(entries[i]) :: multiset(entries)[entries[i]] > 0;
    Filter(entries, keep)
  }

  /** `parseOneFile`: the task each file is submitted as. */
  function ParseOneFile<T>(disk: Disk<T>, file: string): (r: Result<Option<T>, LoadError>)
    ensures r.Success? <==> Open(disk, file).Success?
    ensures r.Success? ==> r.value == Open(disk, file).value
    ensures r.Failure? ==> r.error == Runtime("Failed to parse file: " + file, Open(disk, file).error)
  {
    match Open(disk, file)
    case Failure(e) => Failure(Runtime("Failed to parse file: " + file, e))
    case Success(record) => Success(record)
  }

  /** Collecting the futures in submission order: the first failed task's
      exception comes back wrapped by `get`. */
  function Collect<T>(disk: Disk<T>, files: seq<string>): (r: Result<seq<Option<T>>, LoadError>)
    ensures r.Success? <==> forall i | 0 <= i < |files| :: Open(disk, files[i]).Success?
    ensures r.Success? ==> |r.value| == |files|
                           && forall i | 0 <= i < |files| :: r.value[i] == Open(disk, files[i]).value
    ensures r.Failure? ==> exists i | 0 <= i < |files| ::
                             && (forall j | 0 <= j < i :: Open(disk, files[j]).Success?)
                             && ParseOneFile(disk, files[i]).Failure?
                             && r.error == Execution(ParseOneFile(disk, files[i]).error)
  {
    if files == [] then Success([])
    else
      match ParseOneFile(disk, files[0])
      case Failure(e) => Failure(Execution(e))
      case Success(first) =>
        match Collect(disk, files[1..])
        case Failure(e) =>
          assert forall j | 1 <= j < |files| :: files[1..][j - 1] == files[j];
          Failure(e)
        case Success(rest) =>
          assert forall j | 1 <= j < |files| :: files[1..][j - 1] == files[j];
          Success([first] + rest)
  }

  function FolderMessage(folder: string): string {
    "Failed to load from folder: " + folder
  }

  /** `loadFromFolder(folder, threads)`. The pool is made before anything
      else, outside the `try`, so a non-positive size escapes unwrapped;
      once made, the pool is shut down in `finally` whatever happens. The
      listing stream is closed before that. */
  function LoadFromFolder<T>(disk: Disk<T>, folder: string, threads: int): (run: Run<T>)
    ensures threads <= 0 ==> run == Run(Failure(BadPoolSize), [])
    ensures threads > 0 ==>
              && |run.trace| >= 2
              && run.trace[0] == PoolCreated(threads)
              && run.trace[|run.trace| - 1] == PoolShutdown
              && (forall i | 1 <= i < |run.trace| - 1 :: run.trace[i] != PoolShutdown && !run.trace[i].PoolCreated?)
    ensures threads > 0 && disk.list(folder).None? ==>
              run.result == Failure(Runtime(FolderMessage(folder), IoFailure))
    ensures run.result.Failure? && threads > 0 ==> run.result.error.Runtime? && run.result.error.message == FolderMessage(folder)
  {
    if threads <= 0 then Run(Failure(BadPoolSize), [])
    else
      match disk.list(folder)
      case None => Run(Failure(Runtime(FolderMessage(folder), IoFailure)), [PoolCreated(threads), PoolShutdown])
      case Some(entries) =>
        var trace := [PoolCreated(threads), Listed, StreamClosed, PoolShutdown];
        match Collect(disk, JsonFiles(entries))
        case Failure(e) => Run(Failure(Runtime(FolderMessage(folder), e)), trace)
        case Success(records) => Run(Success(records), trace)
  }

  /** `loadFromFolder(folderPath)`: the same with a pool of four threads. */
  function LoadFromFolderDefault<T>(disk: Disk<T>, folderPath: string): (run: Run<T>)
    ensures run.trace != [] && run.trace[0] == PoolCreated(DefaultThreads)
    ensures run.result.Success? ==> disk.list(folderPath).Some?
  {
    LoadFromFolder(disk, folderPath, DefaultThreads)
  }

  /** The parallel folder load reads the same records, in listing order, as
      loading the folder's `.json` files one after the other; the two fail
      together. */
  lemma FolderMatchesLoadAll<T>(disk: Disk<T>, folder: string, threads: int)
    requires threads > 0 && disk.list(folder).Some?
    ensures var run := LoadFromFolder(disk, folder, threads);
            var seqLoad := LoadAll(disk, JsonFiles(disk.list(folder).value));
            && (run.result.Success? <==> seqLoad.Success?)
            && (run.result.Success? ==> run.result.value == seqLoad.value)
  {
    var files := JsonFiles(disk.list(folder).value);
    var c := Collect(disk, files);
    var l := LoadAll(disk, files);
    if c.Success? && l.Success? {
      assert c.value == l.value;
    }
  }

  /** A folder load succeeds exactly when the folder lists and every `.json`
      file in it reads and parses; the other entries are never opened. */
  lemma FolderLoadSucceedsIff<T>(disk: Disk<T>, folder: string, threads: int)
    requires threads > 0
    ensures LoadFromFolder(disk, folder, threads).result.Success?
        <==> && disk.list(folder).Some?
             && forall i | 0 <= i < |disk.list(folder).value| && EndsWith(disk.list(folder).value[i], ".json")
                  :: Open(disk, disk.list(folder).value[i]).Success?
  {
    if disk.list(folder).Some? {
      var entries := disk.list(folder).value;
      var files := JsonFiles(entries);
      if LoadFromFolder(disk, folder, threads).result.Success? {
        assert Collect(disk, files).Success?;
        forall i | 0 <= i < |entries| && EndsWith(entries[i], ".json")
          ensures Open(disk, entries[i]).Success?
        {
          assert entries[i] in files;
          var k :| 0 <= k < |files| && files[k] == entries[i];
        }
      } else {
        assert Collect(disk, files).Failure?;
        var k :| 0 <= k < |files| && !Open(disk, files[k]).Success?;
        assert files[k] in files;
        var i :| 0 <= i < |entries| && entries[i] == files[k];
      }
    }
  }
}
