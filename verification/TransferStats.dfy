/** TransferStats: the ledger of transfers shared by every sending strategy. */
module TransferStats {

  function Failures(ended: seq<bool>): nat
  {
    if ended == [] then 0 else Failures(ended[..|ended| - 1]) + if ended[|ended| - 1] then 0 else 1
  }

  class Stats {
    var totalCount: int
    var totalBytes: int
    var activeCount: int
    var errorCount: int
    var totalDurationMs: int
    ghost var ended: seq<bool>

    /** The active transfers are those started and not ended; the errors are the failed ends. */
    ghost predicate Valid()
      reads this
    {
      activeCount == totalCount - |ended| && errorCount == Failures(ended)
    }

    constructor ()
      ensures Valid() && totalCount == 0 && ended == [] && totalBytes == totalDurationMs == 0
    {
      totalCount, totalBytes, activeCount, errorCount, totalDurationMs, ended := 0, 0, 0, 0, 0, [];
    }

    method RecordStart(bytes: int)
      requires Valid()
      modifies this
      ensures Valid() && ended == old(ended)
      ensures totalCount == old(totalCount) + 1 && activeCount == old(activeCount) + 1
      ensures totalBytes == old(totalBytes) + bytes && totalDurationMs == old(totalDurationMs)
    {
      totalCount := totalCount + 1;
      totalBytes := totalBytes + bytes;
      activeCount := activeCount + 1;
    }

    method RecordEnd(success: bool, ms: int)
      requires Valid()
      modifies this
      ensures Valid() && ended == old(ended) + [success]
      ensures totalCount == old(totalCount) && activeCount == old(activeCount) - 1
      ensures totalBytes == old(totalBytes) && totalDurationMs == old(totalDurationMs) + ms
    {
      activeCount := activeCount - 1;
      if !success { errorCount := errorCount + 1; }
      totalDurationMs := totalDurationMs + ms;
      ended := ended + [success];
    }
  }
}
