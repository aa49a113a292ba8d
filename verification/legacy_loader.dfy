/** The older loader's folder load. Its `load`, `loadAll` and `parseOneFile`
    are the core loader's code and are modelled by the same functions; the
    folder load differs: the listing stream and the pool are resources of one
    `try`, the listing first, so a listing failure means no pool is made, a
    bad pool size is wrapped like every other failure, and the pool is closed
    (waiting for its tasks) before the stream. */
module LegacyLoader {
  import opened Wrappers
  import opened Loader

  /** `loadFromFolder(folder, threads)` of the older class. */
  function LoadFromFolder<T>(disk: Disk<T>, folder: string, threads: int): (run: Run<T>)
    ensures disk.list(folder).None? ==> run == Run(Failure(Runtime(FolderMessage(folder), IoFailure)), [])
    ensures disk.list(folder).Some? && threads <= 0 ==>
              run == Run(Failure(Runtime(FolderMessage(folder), BadPoolSize)), [Listed, StreamClosed])
    ensures run.result.Failure? ==> run.result.error.Runtime? && run.result.error.message == FolderMessage(folder)
    ensures forall i | 0 <= i < |run.trace| && run.trace[i].PoolCreated? ::
              exists j | i < j < |run.trace| :: run.trace[j] == PoolClosed
    ensures forall i | 0 <= i < |run.trace| && run.trace[i].PoolCreated? :: run.trace[0] == Listed
  {
    match disk.list(folder)
    case None => Run(Failure(Runtime(FolderMessage(folder), IoFailure)), [])
    case Some(entries) =>
      if threads <= 0 then Run(Failure(Runtime(FolderMessage(folder), BadPoolSize)), [Listed, StreamClosed])
      else
        var trace := [Listed, PoolCreated(threads), PoolClosed, StreamClosed];
        assert trace[2] == PoolClosed;
        match Collect(disk, JsonFiles(entries))
        case Failure(e) => Run(Failure(Runtime(FolderMessage(folder), e)), trace)
        case Success(records) => Run(Success(records), trace)
  }

  /** `loadFromFolder(folderPath)`: four threads. */
  function LoadFromFolderDefault<T>(disk: Disk<T>, folderPath: string): (run: Run<T>)
    ensures disk.list(folderPath).Some? ==> PoolCreated(DefaultThreads) in run.trace
  {
    LoadFromFolder(disk, folderPath, DefaultThreads)
  }

  /** With a positive pool size the two loaders give the same outcome,
      failures included; with a non-positive one the core loader lets the
      pool's exception escape unwrapped while this one wraps it (or, when the
      listing fails, never gets as far as the pool). */
  lemma LoadersAgree<T>(disk: Disk<T>, folder: string, threads: int)
    ensures threads > 0 ==> LoadFromFolder(disk, folder, threads).result == Loader.LoadFromFolder(disk, folder, threads).result
    ensures threads <= 0 ==>
              && Loader.LoadFromFolder(disk, folder, threads).result == Failure(BadPoolSize)
              && LoadFromFolder(disk, folder, threads).result
                 == Failure(Runtime(FolderMessage(folder), if disk.list(folder).None? then IoFailure else BadPoolSize))
  {
  }
}
