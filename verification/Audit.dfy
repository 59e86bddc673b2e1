/** src/chips/harvester/ingestion.py, end to end: ingest batch after batch, then rebuild and compare. */
module Audit {
  import opened Sums
  import opened GitReader
  import opened History
  import opened HarvesterStore
  import opened GitIngestion
  import opened Replay

  /** Ingests batches into an empty store, replays its truth table, and tells whether the replay left the
      aggregates as they were: it does exactly when no repeated sha changes a file. */
  method IngestThenRebuild(ingestion: GitIngestion, batches: seq<seq<CommitRecord>>) returns (agrees: bool)
    requires ingestion.Agrees() && ingestion.history == []
    modifies ingestion, ingestion.store
    ensures ingestion.Agrees()
    ensures ingestion.store.commits == Append(map[], Flat(batches))
    ensures agrees <==> RepeatsTouchNothing(Flat(batches))
  {
    hide Reflects, Append, RepeatsTouchNothing, Flat, Singles, TruthOrder;
    var store := ingestion.store;
    var i := 0;
    while i < |batches|
      invariant 0 <= i <= |batches|
      invariant ingestion.Agrees()
      invariant Flat(ingestion.history) == Flat(batches[..i])
    {
      assert batches[..i + 1] == batches[..i] + [batches[i]];
      FlatAppend(batches[..i], batches[i]);
      FlatAppend(ingestion.history, batches[i]);
      ingestion.IngestCommits(batches[i]);
      i := i + 1;
    }
    assert batches[..i] == batches;
    ghost var history, ingested := ingestion.history, store.Derived();
    var defects, pairs, signals := store.defects, store.pairs, store.signals;
    ingestion.RebuildDerivedFromTruth();
    ReplayAgreesIff(store.env, history, ingested, store.Derived());
    agrees := defects == store.defects && pairs == store.pairs && signals == store.signals;
  }
}
