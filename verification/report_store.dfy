/** The in-memory store of finished asynchronous reports: a map from job id to
    the report's bytes, file name and content type. */
module ReportStore {
  import opened Wrappers
  import Utf8

  datatype ReportResult = ReportResult(data: seq<Utf8.Byte>, filename: string, contentType: string)

  type Store = map<string, ReportResult>

  /** `get`: the report stored under the job id, or null. */
  function Get(store: Store, jobId: string): (r: Option<ReportResult>)
    ensures r.None? <==> jobId !in store
    ensures r.Some? ==> jobId in store && store[jobId] == r.value
  {
    if jobId in store then Some(store[jobId]) else None
  }

  /** `put`: the report is stored under the job id, replacing any earlier one;
      every other job keeps what it had. */
  function Put(store: Store, jobId: string, data: seq<Utf8.Byte>, filename: string, contentType: string)
    : (s: Store)
    ensures s.Keys == store.Keys + {jobId}
    ensures Get(s, jobId) == Some(ReportResult(data, filename, contentType))
    ensures forall other | other != jobId :: Get(s, other) == Get(store, other)
  {
    store[jobId := ReportResult(data, filename, contentType)]
  }

  /** A second put under the same job id wins. */
  lemma PutOverwrites(store: Store, jobId: string, d1: seq<Utf8.Byte>, f1: string, c1: string,
                      d2: seq<Utf8.Byte>, f2: string, c2: string)
    ensures Put(Put(store, jobId, d1, f1, c1), jobId, d2, f2, c2) == Put(store, jobId, d2, f2, c2)
  {
  }

  /** Puts under different job ids do not interfere, whatever their order. */
  lemma PutsCommute(store: Store, a: string, da: seq<Utf8.Byte>, fa: string, ca: string,
                    b: string, db: seq<Utf8.Byte>, fb: string, cb: string)
    requires a != b
    ensures Put(Put(store, a, da, fa, ca), b, db, fb, cb) == Put(Put(store, b, db, fb, cb), a, da, fa, ca)
  {
  }
}
