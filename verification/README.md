# A verified model of CHIPS

CHIPS compiles briefs for coding agents. A harvester ingests git commits into an append-only truth table and keeps four derived
tables beside it; a compiler retrieves symbols, memories and evidence, trims them to a budget, ranks hypotheses, stores constraints
and learns from feedback. This project models the parts of both that hold state machines, loops and parsers, in Dafny, and proves
what they promise for every input, every run and every interleaving.

`dafny verify dfyconfig.toml` checks the whole project.

## The modules

| module | what it models |
|---|---|
| `Signals`, `GitReader` | normalised entropy, co-change pairs, churn and file signals |
| `Text`, `GitLog` | strip, split and splitlines; the log format and its parser |
| `History`, `HarvesterStore`, `GitIngestion` | the tables, the store and the ingestion service; the tables as functions of the commits |
| `TableMeaning` | what each row of the five tables says about the commits |
| `Replay`, `Snapshots`, `ExactReplay`, `PartnerCounts`, `Audit` | what replay, reordering and batching do to the tables |
| `CallGraph`, `Structural` | distances in the call graph; the budgeted breadth-first search |
| `Compressor` | the two-phase greedy selection and its trace |
| `Constraints`, `ConstraintStore`, `ConstraintRace` | the dedup identity, the repository, and any number of concurrent clients of it |
| `Hypotheses` | scoring and ranking of hypotheses |
| `Learning`, `Retrieval` | feedback scores; their effect on ranker and governor |
| `IssueRefs` | the resumable queue of issue references |
| `Sorting`, `Sums`, `Numerals` | Python's stable sort, counting dictionaries, sums over lists, decimal numerals |

Functions that the program calls but does not define (`math.log`, the tokenizer, path classification, regex extraction, case
folding, the tracker's answers, what other clients do) are parameters. `LnLaws` is all that is assumed of the logarithm:
ln(xy) = ln x + ln y and ln x <= x - 1. `CaseFold` is what is assumed of case folding; ASCII folding is shown to satisfy it.

## Where the code and its documentation disagree

- The comment at `src/chips/harvester/ingestion.py:46-48` says that replay reconstructs the exact same aggregates and snapshots.
  The aggregates: yes, exactly when no repeated sha changes a file (`Replay.ReplayAgreesIff`). The snapshots: all columns but
  entropy, up to row order, under the same condition (`Snapshots.ColumnsReplayedIff`). The entropy column too, and in the same row
  order, exactly when moreover the commits that change files came in truth order and every batch was settled, that is, each commit
  already found the entropies its batch leaves (`ExactReplay.ExactReplayIff`): a batch merges all its pairs before it records any
  entropy. `Snapshots.BatchingShowsInSnapshots` gives four commits that a rebuild records differently.
- The docstring at `src/chips/compiler/structural.py:188-190` says that `bodies=False` keeps the same selection. The selections are
  the same exactly when each prefix of the order is affordable in both renderings or in neither (`CallGraph.SameSelectionIff`);
  `Structural.SelectionsDiffer` gives two symbols for which they are not. When no signature costs more than its body, the one only
  extends the other (`Structural.SignaturesExtendBodies`).
- The tests and comments treat a NULL tenant and an empty one as the same constraint identity. They are, for `add`; but `for_scope`
  with an empty tenant does not list the untenanted row that such an `add` returns (`ConstraintStore.AddedIsListedIff`).
- `known_issue` constraints never count as contradictions (`src/chips/compiler/hypothesis.py:15-16`), but they are not outside the
  score. With constraint ids of their own, while evidence may repeat ids, and the positive weights that constraints carry: dropping
  the known issues leaves the ranking as it was, whatever the weights of the score, exactly when no hypothesis cites one
  (`Hypotheses.KnownIssuesRankIff`; for one score `Hypotheses.KnownIssuesScoreIff`), and a cited one can turn the order of two
  hypotheses round (`Hypotheses.CitedKnownIssueCounts`).
- The identity of a finding leaves out volatile metrics such as the confidence (`src/chips/compiler/builder.py:71-84`), while its
  text has them, and the findings of all memories are appended without removing duplicates. So the compressor can be given two
  different items of equal rank. Its ranking is the same for every order of the input exactly when items of equal rank are equal
  (`Compressor.RankedAlikeIff`); `Compressor.InputOrderShows` gives two findings of which the first in the input is kept. The second
  one's id is then neither dropped nor kept twice: `Compressor.TraceCovers` and `Compressor.TracePartitionsIff` say what the trace
  still accounts for.
- `src/chips/compiler/learning.py:48-55` decodes JSON text. A column the driver has already parsed, as drivers do for JSONB, is
  treated as empty. So the stored outcome counts add up to the memories the briefs hold exactly when no brief in scope has a parsed
  list that names one (`Learning.OccurrencesCountedIff`; `Learning.ParsedBriefLost` gives one that has), and a recompute learns
  nothing at all exactly when no brief in scope names a memory in readable text (`Learning.NothingLearnedIff`).
- `src/chips/harvester/issue_refs.py:172` says that a harvest never raises. Given that the query for pending references answers, the
  fetch loop does raise, exactly when the first reference of the batch that is not answered for good is answered 200 with a body
  that cannot be read as an issue (`IssueRefs.RaisesIff`): the body is
  decoded at line 94, outside the handler. The reference gets no row and stays at the head of the queue, and while it is answered
  so, nothing behind it is harvested (`IssueRefs.StaysPendingIff`, `IssueRefs.HeadBlocks`). The query itself says
  `SELECT DISTINCT ref` at line 123 where both `refs.ref` and `i.ref` are in scope, which PostgreSQL rejects as ambiguous; the model
  takes the subquery's column.

## Model

| member | source | states |
|---|---|---|
| Signals.LnStrict | src/chips/harvester/signals.py:52 | from the two laws of ln alone: ln x < x - 1 everywhere but at 1, which is what makes "entropy 1" mean "equal frequencies" |
| Signals.RatioBounds | src/chips/harvester/signals.py:46-53 | before any clamp the normalised entropy of two or more positive frequencies is above 0 and at most 1, and it is 1 exactly when the frequencies are all equal |
| Signals.NormalizedEntropyBounds | src/chips/harvester/signals.py:42-56 | the result is in [0,1]; it is 0 exactly when at most one frequency is positive; the clamp never acts; it is 1 only for equal frequencies or within the isclose tolerance |
| Signals.EntropyPermutation | src/chips/harvester/signals.py:42-56 | any permutation of the frequencies has the same entropy |
| Signals.EntropyScaling | src/chips/harvester/signals.py:42-56 | multiplying all frequencies by a positive number leaves the entropy alone |
| Signals.EntropyOfCounts | src/chips/harvester/signals.py:46-53 | for frequencies v of total T: T times the entropy is T ln T less the sum of v ln v |
| Signals.ComputeNormalizedEntropy | src/chips/harvester/signals.py:42-56 | the accumulator loop computes that entropy |
| Signals.CochangeEntropyForFile | src/chips/harvester/signals.py:65-78 | the dictionary may be read in any order: generated files have 0, else the entropy over hand-written partners with support of at least 2 |
| Signals.CochangeEntropyListing | src/chips/harvester/signals.py:73-78 | every listing of the partner dictionary gives the same entropy |
| Signals.CountedPartners | src/chips/harvester/signals.py:65-78 | a hand-written file has the entropy of its frequencies with the hand-written partners of at least two shared commits, in any order, and it is positive exactly when there are two of them |
| Signals.CochangeEntropyInUnitInterval | src/chips/harvester/signals.py:65-78 | a file's co-change entropy is in [0,1] |
| GitReader.PairsInSorted | src/chips/harvester/git_reader.py:99-105 | the double loop over the sorted list counts, for every pair, the product of the multiplicities with the smaller file first (n choose 2 for a file with itself): a number that does not mention order |
| GitReader.Choose2Closed | src/chips/harvester/git_reader.py:102-105 | a list of n files has n(n-1)/2 pairs |
| GitReader.ComputeCochangePairs | src/chips/harvester/git_reader.py:96-106 | the rows give every pair its frequency over the commits, none is zero, and together they count n(n-1)/2 for each commit of at most 100 files |
| GitReader.PairFrequencyIs | src/chips/harvester/git_reader.py:96-106 | the frequency of a pair sums, over the commits of at most 100 files, the ways to pick one position of each file, the smaller file first; the other way round it is 0 |
| GitReader.PairFrequencyOfTidy | src/chips/harvester/git_reader.py:96-106 | where no commit lists a file twice it is the number of commits of at most 100 files that list both |
| GitReader.SortedSetMembers | src/chips/harvester/git_reader.py:112 | sorted(set(files)) lists each file once, in order |
| Sorting.StrLeIff | src/chips/harvester/git_reader.py:112 | strings are compared by code points: a prefix comes first, otherwise the first difference decides |
| GitReader.CountSignals | src/chips/harvester/git_reader.py:109-122 | churn is the number of commits touching the file, and the keys of its dictionary come in the order of first touch; the partner dictionary is symmetric and counts the small commits touching both |
| GitReader.ComputeFileSignals | src/chips/harvester/git_reader.py:108-133 | one signal for each touched file, in the order of first touch, with its churn, its score log-scaled by the largest churn, partner entropy and kind |
| GitReader.LargestCount | src/chips/harvester/git_reader.py:123 | the largest value of the dictionary, 1 when it is empty |
| GitReader.LargestIsPeak | src/chips/harvester/git_reader.py:123 | over the churn dictionary that is the largest number of commits that touch one file |
| GitReader.TouchesPositive | src/chips/harvester/git_reader.py:111-114 | a file has churn exactly when some commit lists it |
| GitReader.TouchesAre | src/chips/harvester/git_reader.py:111-114 | churn is the number of commits that list the file, once or repeatedly |
| GitReader.ChurnScoreIs | src/chips/harvester/git_reader.py:123-128 | the score times ln(1 + peak) is ln(1 + count); it is above 0, at most 1, and 1 exactly for the peak |
| GitReader.SingleCommitSignals | src/chips/harvester/git_reader.py:123-133 | for a single commit every distinct file is counted once, in sorted order, with score log 2 / log 2 = 1 |
| History.PartnersInIs | src/chips/harvester/storage.py:222-235 | with the smaller file first in every row, a file's partner entries are exactly the rows that name it, so the dictionary never overwrites an entry |
| History.PartnersSymmetric | src/chips/harvester/storage.py:222-235 | the frequency of g for f is that of f for g |
| History.PartnersReflect | src/chips/harvester/storage.py:208-235 | a pairs table built from commits has the smaller file first, and what it says about a file is what the commits say |
| History.CouplingUntouched | src/chips/harvester/ingestion.py:50-55 | commits that do not touch a file leave its partner frequencies alone |
| History.EntropyUntouched | src/chips/harvester/ingestion.py:50-55 | and so its entropy: a file's last upsert has seen the final frequencies |
| HarvesterStore.PostgresHarvesterStore.AppendGitCommits | src/chips/harvester/storage.py:103-119 | the truth table gains the commits with new shas; the first commit of a sha stays |
| HarvesterStore.PostgresHarvesterStore.TruthCommits | src/chips/harvester/storage.py:121-138 | whatever order the rows are read in, the result is all of them in truth order, earlier instants first and of one instant the smaller sha |
| HarvesterStore.TruthOrderListing | src/chips/harvester/storage.py:121-138 | every listing of the rows sorts to the same sequence |
| HarvesterStore.TruthOldestFirst | src/chips/harvester/storage.py:121-138 | of two rows the earlier in truth order has the earlier instant, or the same instant and the smaller sha |
| HarvesterStore.PostgresHarvesterStore.ClearDerivedTables | src/chips/harvester/storage.py:140-145 | empties the four derived tables and nothing else |
| HarvesterStore.PostgresHarvesterStore.RebuildDefectCorpusForShas | src/chips/harvester/storage.py:184-206 | re-extracts the evidence of the stored commits among the shas, from the stored message |
| HarvesterStore.PostgresHarvesterStore.MergeCochangePairs | src/chips/harvester/storage.py:208-220 | adds each row's frequency to its pair; the total grows by the total of the rows |
| HarvesterStore.PostgresHarvesterStore.PartnerFrequencies | src/chips/harvester/storage.py:222-235 | whatever order the rows are read in, each partner is entered with the frequency of its one row |
| HarvesterStore.PostgresHarvesterStore.UpsertFileSignal | src/chips/harvester/storage.py:237-259 | adds to the churn score, replaces entropy and kind |
| HarvesterStore.PostgresHarvesterStore.SnapshotFileSignal | src/chips/harvester/storage.py:261-300 | appends one row |
| GitIngestion.GitIngestion.IngestCommits | src/chips/harvester/ingestion.py:17-23 | for any batch, fresh or not: if the derived tables were exactly what the ingested batches make them, they are so again with this batch added |
| GitIngestion.GitIngestion.UpsertFileSignals | src/chips/harvester/ingestion.py:44-77 | the memoised loop emits the sequence of upserts and the sequence of snapshots, value for value, that the pairs table as it stands gives for each commit and distinct file, so what reading it every time would give; each distinct hand-written file is read once a batch |
| GitIngestion.GitIngestion.UpsertCochangePairs | src/chips/harvester/ingestion.py:36-39 | the pairs table goes on counting all commits, its total the sum of n(n-1)/2 over the commits of at most 100 files |
| GitIngestion.GitIngestion.UpsertDefectCorpus | src/chips/harvester/ingestion.py:41-42 | the corpus holds the evidence of the stored rows of the batch's shas |
| GitIngestion.GitIngestion.ComputeStoredCochangeEntropy | src/chips/harvester/ingestion.py:102-109 | the entropy of a file after all commits merged so far, 0 without a read for generated files |
| GitIngestion.GitIngestion.RebuildDerivedFromTruth | src/chips/harvester/ingestion.py:25-31 | whatever the derived tables held, they end as those of the truth table replayed commit by commit, oldest first; the truth table is unchanged |
| GitIngestion.SignalsGrow | src/chips/harvester/ingestion.py:44-77 | upserting only the files a batch touches brings the signals of all files up to date |
| GitIngestion.BuiltGrows | src/chips/harvester/ingestion.py:17-23 | one whole batch carries pairs, signals and snapshots from one history to the next |
| TableMeaning.TruthSays | src/chips/harvester/storage.py:103-119 | the truth table holds the first commit of every sha that was ingested, and nothing else |
| TableMeaning.CorpusSays | src/chips/harvester/ingestion.py:41-42 | the corpus holds, for every sha ingested, the evidence in the message of its first commit |
| TableMeaning.PairsSay | src/chips/harvester/storage.py:208-220 | there is a row for two files exactly when they were changed together, with how often that was |
| TableMeaning.SignalsSay | src/chips/harvester/storage.py:237-259 | there is a row for a file exactly when some commit lists it; its churn is the number of commits that do; its entropy is 0 if it is generated |
| TableMeaning.EntropySays | src/chips/harvester/ingestion.py:102-109 | the entropy stored for a hand-written file is that of how often it was changed with each hand-written file it was changed with at least twice |
| TableMeaning.SnapshotRowsSay | src/chips/harvester/ingestion.py:57-77 | a commit adds one snapshot row for each file it lists, in sorted order, with its sha, churn 1 and the entropy and kind of the file |
| Replay.KeptIsReplayed | src/chips/harvester/storage.py:103-138 | what the truth table keeps of any history is, up to order, what a rebuild replays |
| Replay.HistoryCounts | src/chips/harvester/ingestion.py:17-31 | a history counts for every pair and file what its replay counts plus what its repeated shas touch |
| Replay.CountsDetermineAggregates | src/chips/harvester/ingestion.py:17-77 | the aggregates depend on the truth table and the counts, not on order or batches |
| Replay.ReplayAgreesIff | src/chips/harvester/ingestion.py:17-77 | incremental ingestion, in any order and batches, and replay end in the same pairs, signals and corpus exactly when no commit that changes files repeats an earlier sha |
| Replay.FreshBatchKeepsAgreement | src/chips/harvester/ingestion.py:17-23 | the condition batch by batch, as a caller can check it: the new commits' shas are fresh, or they change nothing |
| Replay.AnyOrderAnySplit | src/chips/harvester/ingestion.py:17-77 | with distinct shas the same commits in any order and any batches end in the same truth table and aggregates |
| Replay.SameTruth | src/chips/harvester/storage.py:103-119 | with distinct shas the truth table does not depend on the order of the commits |
| Replay.RebuildDetermined | src/chips/harvester/ingestion.py:25-31 | the result of a rebuild is a function of the truth table, so a second rebuild changes nothing |
| Audit.IngestThenRebuild | src/chips/harvester/ingestion.py:17-31 | end to end on the objects: ingest any batches into an empty store, rebuild, compare; the aggregates are the same exactly when no repeated sha changes a file |
| Snapshots.SnapshotColumns | src/chips/harvester/ingestion.py:57-77 | entropy aside, the log is one row for each commit and distinct file, in the order of ingestion, whatever the batches |
| Snapshots.ColumnsReplayedIff | src/chips/harvester/ingestion.py:25-77 | entropy aside, replay reproduces the log up to row order exactly when no repeated sha changes a file |
| Snapshots.BatchingShowsInSnapshots | src/chips/harvester/ingestion.py:46-55 | four commits of three hand-written files, ingested in one batch, whose snapshots a rebuild does not reproduce, though the aggregates agree; nothing is asked of the classifier elsewhere |
| Snapshots.FourEditsOrder | src/chips/harvester/storage.py:121-138 | those four commits are replayed in the order they were ingested |
| ExactReplay.BatchSplitsIff | src/chips/harvester/ingestion.py:44-77 | a batch records the rows its commits one by one would record exactly when each of them already finds its files' entropies as the whole batch leaves them |
| ExactReplay.CouplingSettles | src/chips/harvester/ingestion.py:50-55 | whatever the logarithm, that is so when no later commit of the batch moves the partners of a file |
| ExactReplay.TouchedOnceSettles | src/chips/harvester/ingestion.py:50-55 | in particular when no file is touched twice |
| ExactReplay.HistorySplitsIff | src/chips/harvester/ingestion.py:17-77 | a history of batches records the rows its commits one by one would record exactly when every batch is settled |
| ExactReplay.ChangingSnapshots | src/chips/harvester/ingestion.py:57-77 | commits that change no file do not show in the log |
| ExactReplay.ExactReplayIff | src/chips/harvester/ingestion.py:17-77 | a rebuild reproduces all four tables to the last column and row exactly when no repeated sha changes a file, the commits that change files were ingested in truth order, and every batch was settled |
| ExactReplay.FullReplay | src/chips/harvester/ingestion.py:25-77 | so it does for batches in truth order none of which touches a file twice, single commits among them |
| PartnerCounts.InMemoryAgreesIff | src/chips/harvester/git_reader.py:96-122 | the stored partner frequencies are the in-memory ones for every file exactly when every file list is tidy: no repetition, or too long even without repetitions, or at most one distinct file |
| GitLog.ParseLog | src/chips/harvester/git_reader.py:62-94 | the loop over blocks, with its in_files flag, reads the commits the recursive parser specifies |
| GitLog.ParsedIsClean | src/chips/harvester/git_reader.py:62-94 | for any text: parsed fields are trimmed single lines without "===", with no bar in sha, author or date, and no file is empty or "---" |
| GitLog.RoundTripIff | src/chips/harvester/git_reader.py:37-94 | parsing the printed log gives back the same commits in the same order exactly when all their fields are clean in that sense (the message may contain bars) |
| GitLog.ParseNormalises | src/chips/harvester/git_reader.py:62-94 | for any text, printing what was parsed and parsing it again changes nothing |
| GitLog.FieldsRead | src/chips/harvester/git_reader.py:37-94 | a clean commit whose text is a line of three signs, sha, author, date and subject between bars, a line of three dashes, and the files, is read as that commit |
| GitLog.FilesAfterMarker | src/chips/harvester/git_reader.py:77-85 | the files are the trimmed lines after the first line of dashes, empty lines and further such lines aside; without one there are none |
| GitLog.BlockReadIff | src/chips/harvester/git_reader.py:64-75 | a block is read as a commit exactly when its first line has three bars or more |
| Text.SpacesAre | src/chips/harvester/git_reader.py:64-79 | the code points that strip removes and splitlines breaks at |
| Text.EndedLines | src/chips/harvester/git_reader.py:68 | splitlines reads back lines that all end with one break, or with a carriage return and a line feed |
| CallGraph.ReachIffWalk | src/chips/compiler/structural.py:255-261 | a name is reached within n hops exactly when some chain of at most n calls leads to it from an anchor |
| CallGraph.LevelOrderReaches | src/chips/compiler/structural.py:219-261 | level order lists each name within the hop limit once, nearest first |
| CallGraph.DistanceIs | src/chips/compiler/structural.py:230-261 | the distance of a name is the number of calls in the shortest chain that leads to it from an anchor |
| CallGraph.OneMoreHop | src/chips/compiler/structural.py:216-261 | the order for one more hop lists the anchors and then all callees of the order so far, each name at its first mention |
| CallGraph.OrderOfDiscovery | src/chips/compiler/structural.py:216-261 | so names come in the order in which anchors and callees, as written in the sources, first mention them |
| CallGraph.EnoughBudgetReaches | src/chips/compiler/structural.py:219-263 | given the budget, the selection is what chains of at most hop_depth calls reach, each once, in non-decreasing distance, and nothing else |
| CallGraph.FittingIsLongest | src/chips/compiler/structural.py:242-253 | under a budget the selection is the longest prefix of that order whose cost fits |
| CallGraph.FittingGrows | src/chips/compiler/structural.py:242-253 | a larger budget only extends the selection |
| CallGraph.SameSelectionIff | src/chips/compiler/structural.py:188-190 | for any two renderings: the selections are the same exactly when each prefix of the order is affordable in both or in neither |
| Structural.LastDefinitionKept | src/chips/compiler/structural.py:213-214 | a name is defined exactly when some symbol has it, and its definition is the last symbol that has it |
| Structural.CollectSymbols | src/chips/compiler/structural.py:199-214 | the loop builds that dictionary: the names are those of the symbols, each with the last symbol of the name |
| Structural.Search | src/chips/compiler/structural.py:219-263 | the loop with its queue of possible duplicates returns the fitting prefix of level order; every name selected has an entry in the depth table and every entry is a shortest distance; it terminates |
| Structural.RetrieveStructural | src/chips/compiler/structural.py:216-263 | the same from the parsed symbols, with the first five names as anchors when none are given |
| Structural.AnchorsAre | src/chips/compiler/structural.py:216-220 | anchors given are taken as they are; otherwise the first five different names, in the order they were first defined in |
| Structural.ItemsAre | src/chips/compiler/structural.py:240-253 | one result for each name selected, with the kind, file and callees of its symbol and its body or its signature |
| Structural.BudgetKept | src/chips/compiler/structural.py:226-253 | the texts returned, at four characters to the token and at least one token each, stay within the budget, and with the next symbol in order they would not |
| Structural.SignaturesExtendBodies | src/chips/compiler/structural.py:188-263 | when no signature costs more than its body, the bodies selected are a prefix of the signatures selected |
| Structural.SelectionsDiffer | src/chips/compiler/structural.py:188-190 | two functions for which the selections differ: four tokens pay for one body and for both signatures |
| Compressor.TrimSoftItems | src/chips/compiler/compressor.py:126-167 | the two loops with their running totals compute the selection the following rows are about |
| Compressor.TrimPermutation | src/chips/compiler/compressor.py:126-167 | every permutation of the input gives the same list if items of equal rank are equal; they may be listed repeatedly |
| Compressor.DistinctIdsOrdered | src/chips/compiler/compressor.py:130 | distinct ids are enough for that |
| Compressor.RankedAlikeIff | src/chips/compiler/compressor.py:130 | the ranking both passes go through is the same for every permutation of the input exactly when items of equal rank are equal |
| Compressor.InputOrderShows | src/chips/compiler/builder.py:174-183 | two findings with one identity and different confidence: the first in the input is kept, whichever it is |
| Compressor.GreedyEmptyIff | src/chips/compiler/compressor.py:167 | the one-item fallback is used exactly when no single item fits |
| Compressor.TrimWithinIff | src/chips/compiler/compressor.py:109-167 | the result respects the character, token and count budgets exactly when some item does alone |
| Compressor.TrimMaximal | src/chips/compiler/compressor.py:109-167 | and then no item left out fits at the final totals |
| Compressor.BudgetsKept | src/chips/compiler/compressor.py:109-167 | written out: if some item fits alone, the number of items, the sum of text length + 4, and the sum of the tokenizer's counts, at least 1 each, are within the three limits; otherwise the best item is returned |
| Compressor.BudgetsUsed | src/chips/compiler/compressor.py:109-167 | and any item left out would break one of the three |
| Compressor.OrderedIs | src/chips/compiler/compressor.py:130 | items are considered in the order of falling scores, and of one score by id |
| Compressor.RejectedHeadStaysOut | src/chips/compiler/compressor.py:140-165 | a head rejected in phase one is not kept in phase two |
| Compressor.CategoryHeads | src/chips/compiler/compressor.py:136-138 | the dictionary of first items by category, in the order of insertion |
| Compressor.OneHeadEach | src/chips/compiler/compressor.py:136-138 | no category has two heads |
| Compressor.HeadsAreBest | src/chips/compiler/compressor.py:136-138 | every item has a head of its category at least as good as itself |
| Compressor.EveryCategoryRepresented | src/chips/compiler/compressor.py:136-150 | when the heads fit together, every category is represented by its best item |
| Compressor.Trace | src/chips/compiler/compressor.py:80-89 | the kept ids in selection order, and the ids of the other inputs in input order |
| Compressor.TracePartitions | src/chips/compiler/compressor.py:80-89 | with distinct ids kept and dropped ids together are the input ids, each once |
| Compressor.TracePartitionsIff | src/chips/compiler/compressor.py:80-89 | for any ids: kept and dropped ids together are the input ids, as often as they occur, exactly when no kept id occurs more often in the input than among the kept |
| Compressor.TraceCovers | src/chips/compiler/compressor.py:80-89 | for any ids: every input id is kept or dropped, nothing else is, and none is both |
| Compressor.TrimTwice | src/chips/compiler/compressor.py:126-167 | for every list, with repeated ids too, trimming the trimmed list gives a permutation of it, fallback included |
| Compressor.FallbackStays | src/chips/compiler/compressor.py:167 | the fallback item is its own fallback, whatever the ids |
| Compressor.NormalizeItems | src/chips/compiler/compressor.py:91-107 | items pass through; the i-th plain text of n becomes generic:i with score n - i |
| Numerals.DecimalRead | src/chips/compiler/compressor.py:101 | the index printed into an id is read back from it, so ids of different indices differ |
| Compressor.PlainKeepOrder | src/chips/compiler/compressor.py:91-130 | plain texts get distinct ids and are ranked in the order given |
| Constraints.SameTextIff | src/chips/compiler/constraints.py:18-20 | two texts normalise alike exactly when they have the same words up to case |
| Constraints.NormalizeTwice | src/chips/compiler/constraints.py:18-20 | normalising twice is normalising once |
| Constraints.AsciiFoldIsCaseFold | src/chips/compiler/constraints.py:18-20 | ASCII folding satisfies what is assumed of case folding |
| Constraints.AsciiCases | src/chips/compiler/constraints.py:18-20 | and identifies exactly the two cases of a letter |
| Constraints.DedupKeyIff | src/chips/compiler/constraints.py:23-54 | two drafts get the same identity exactly when scope, kind and words up to case agree, tenants agree up to NULL and empty, and targets are the same JSON value up to NULL and empty |
| ConstraintStore.FindActive | src/chips/compiler/constraint_repository.py:101-106 | nothing exactly when no row of the identity is active; otherwise the id of an active one |
| ConstraintStore.FoundIsActive | src/chips/compiler/constraint_repository.py:101-106 | under the index the id found is the only one active for the identity |
| ConstraintStore.RetireKeeps | src/chips/compiler/constraint_repository.py:69-80 | a retire keeps the index's promise, deletes no row and reactivates none |
| ConstraintStore.InsertKeeps | migrations/versions/007_add_constraints_and_brief_audit.py:54-57 | so does an insert the index admits |
| ConstraintStore.ConstraintRepository.Insert | src/chips/compiler/constraint_repository.py:43-60 | inserts exactly when no row of the identity is active |
| ConstraintStore.ConstraintRepository.Add | src/chips/compiler/constraint_repository.py:27-67 | whatever others commit between its statements: an id returned is active, and the violation is raised only if a rival was active at the insert and none is now; alone it never raises and is the atomic add; every row goes on carrying the identity of its draft |
| ConstraintStore.ConstraintRepository.AddAlone | src/chips/compiler/constraint_repository.py:27-67 | a call while nobody else is at work never raises and is the atomic add |
| ConstraintStore.ConstraintRepository.RetireConstraint | src/chips/compiler/constraint_repository.py:69-80 | supersedes the row of that id if the tenant may see it, touches nothing else, and always answers true |
| ConstraintStore.ForScopeIs | src/chips/compiler/constraint_repository.py:82-95 | for_scope lists exactly the active global or exact-scope rows the tenant may see, each once, most recent first, no two with one identity |
| ConstraintStore.ForScopeLists | src/chips/compiler/constraint_repository.py:82-98 | a row is listed exactly when it is active, global or of the scope asked for, and of the tenant given if one is given |
| ConstraintStore.NewestFirst | src/chips/compiler/constraint_repository.py:96 | the newest first, and those of one time by id |
| ConstraintStore.OthersUnseen | src/chips/compiler/constraint_repository.py:82-98 | a tenant's listing depends on nothing that other tenants have stored |
| ConstraintStore.RetireTouches | src/chips/compiler/constraint_repository.py:69-80 | a retire for a tenant leaves every other row as it was; without a tenant it supersedes the row of the id whosever it is |
| ConstraintStore.RetiredApart | src/chips/compiler/constraint_repository.py:69-98 | a retire for one tenant shows in no listing of another |
| ConstraintStore.AddTwice | src/chips/compiler/constraint_repository.py:27-42 | adding a constraint again, however it is spelled, returns the same id and changes nothing |
| ConstraintStore.RetireFrees | src/chips/compiler/constraint_repository.py:69-80 | retiring an active row frees its identity exactly when the tenant given may see it |
| ConstraintStore.AddedIsListedIff | src/chips/compiler/constraint_repository.py:27-95 | in a table whose rows carry the identities of their drafts, as every call and every step keeps it: what add returned is listed for the scope and tenant it was added under, except exactly when the tenant is the empty string and an untenanted row already stands for the identity |
| ConstraintStore.EmptyTenantHidden | src/chips/compiler/constraint_repository.py:27-95 | such a row, hidden |
| ConstraintRace.StepKeeps | src/chips/compiler/constraint_repository.py:27-80 | every step of every client keeps: one active row an identity, rows about to be committed included, and every row and every call under the identity of its draft |
| ConstraintRace.EveryRunIsSafe | src/chips/compiler/constraint_repository.py:27-80 | in every interleaving at most one row of an identity is active, ids are distinct, every row has the identity of its draft, no row is deleted or made active again, and nothing of it but its status changes |
| ConstraintRace.ReturnedWasActive | src/chips/compiler/constraint_repository.py:40-67 | each id an add returns was active, with the identity asked for, at a moment after the call began and no later than its return; within one call that is the identity of the draft the call was made with |
| ConstraintRace.RequestStays | src/chips/compiler/constraint_repository.py:27-67 | from the start of a call to its end the request is the one made, and its identity that of its draft |
| ConstraintRace.ActiveIsAnswered | src/chips/compiler/constraint_repository.py:36-67 | a call that finds its identity active, at the first look or the second, returns that row's id at once |
| ConstraintRace.RaisedLostItsWinner | src/chips/compiler/constraint_repository.py:61-67 | an add raises only if a row of its identity was active during the call and was retired before its second look; that row is never active again |
| ConstraintRace.StepIsAtomic | src/chips/compiler/constraint_repository.py:27-80 | each step is an atomic add, an atomic retire, or changes no row; a client is answered in a step that is an atomic add with that answer |
| ConstraintRace.RunIsAtomic | src/chips/compiler/constraint_repository.py:27-80 | every interleaving ends in the table that its atomic adds and retires leave when run one at a time, each add returning what its client was told |
| Hypotheses.UniqueValidItems | src/chips/compiler/hypothesis.py:55-64 | the dictionary loop yields the items of the distinct known ids, in the order of first citation |
| Hypotheses.LookupOrder | src/chips/compiler/models.py:105-115 | an id is looked up among the constraints first and among the other evidence only then |
| Hypotheses.FirstIsFound | src/chips/compiler/models.py:105-115 | and the first item that has it is found |
| Hypotheses.Contradiction | src/chips/compiler/hypothesis.py:78-100 | counts the hard constraints declared violated or whose non-empty target is touched |
| Hypotheses.ContradictionsAre | src/chips/compiler/hypothesis.py:78-100 | the count is the number of forbidden or invariant constraints that are declared violated, or whose target path is a touched path, or whose target symbol is a touched symbol |
| Hypotheses.OneConstraint | src/chips/compiler/hypothesis.py:78-100 | one hard constraint on a path counts exactly when the path is touched, on a symbol exactly when the symbol is, and a declared one always |
| Hypotheses.ValidateHypothesis | src/chips/compiler/hypothesis.py:103-124 | one violation for each distinct unknown citation, then one for each distinct declared id that is no constraint |
| Hypotheses.ViolationsAre | src/chips/compiler/hypothesis.py:103-124 | listed are exactly the cited ids that no item has and the declared ids that no constraint has, each once under the hypothesis |
| Hypotheses.CitationsConserved | src/chips/compiler/hypothesis.py:55-116 | each distinct cited id is either the id of one scored item or the subject of one unknown-id violation, once, and nothing else is |
| Hypotheses.OnlySetsMatter | src/chips/compiler/hypothesis.py:55-149 | score and parts depend only on the sets of citations, touched paths, touched symbols and declared violations, violations up to order; the rank hint plays no part |
| Hypotheses.ScoreIs | src/chips/compiler/hypothesis.py:127-149 | the score is the weighted sum of its parts, with the default weights coverage - 2 contradictions + a quarter of the corroboration, which is one less than the kinds and never negative |
| Hypotheses.NothingCited | src/chips/compiler/hypothesis.py:67-149 | a hypothesis that cites nothing has no coverage and no kinds, and if it contradicts nothing the score 0 |
| Hypotheses.RankIsSortedPermutation | src/chips/compiler/hypothesis.py:152-164 | every hypothesis is ranked once, in the order of the five-part key |
| Hypotheses.RankOrder | src/chips/compiler/hypothesis.py:152-164 | higher scores come first, then more coverage, fewer contradictions, more kinds, and the smaller id |
| Hypotheses.RankPermutation | src/chips/compiler/hypothesis.py:152-164 | with distinct ids the ranking does not depend on the order of the input |
| Hypotheses.RankOrderFree | src/chips/compiler/hypothesis.py:152-164 | with any ids it does not, up to the violations listed |
| Hypotheses.PositionIsCount | src/chips/compiler/hypothesis.py:160-164 | a hypothesis stands at the position given by how many are ahead of it |
| Hypotheses.TouchingMore | src/chips/compiler/hypothesis.py:78-149 | touching or declaring more lowers the score by w_con for each newly contradicted constraint and changes no other part of the key; it never raises the score exactly when w_con is not negative or nothing new is contradicted |
| Hypotheses.TouchingMoreNeverHelps | src/chips/compiler/hypothesis.py:127-164 | with w_con not negative, a hypothesis that touches or declares more is ranked no higher among the same others |
| Hypotheses.CitingOneMore | src/chips/compiler/hypothesis.py:67-149 | citing one more known item adds its weight times w_cov, and w_div when it brings another kind to a cited one; citing again or citing an unknown id changes no part of the score |
| Hypotheses.KnownIssuesMatterIff | src/chips/compiler/hypothesis.py:78-100 | dropping the known-issue constraints never changes the contradiction, and leaves the scored items alone exactly when every cited id finds the same item without them |
| Hypotheses.KnownIssuesScoreIff | src/chips/compiler/hypothesis.py:55-149 | with constraint ids of their own, positive weights on known issues, w_cov positive and w_div not negative: dropping the known issues leaves a score alone exactly when the hypothesis cites none of them, and otherwise lowers it |
| Hypotheses.KnownIssuesRankIff | src/chips/compiler/hypothesis.py:127-164 | with constraint ids of their own and positive weights on known issues, whatever the weights of the score: dropping the known issues leaves the ranking as it was, up to the violations listed, exactly when no hypothesis cites one of them |
| Hypotheses.CitedKnownIssueCounts | src/chips/compiler/hypothesis.py:55-69 | a bundle in which a cited known issue turns the ranking of two hypotheses round |
| Learning.BriefLearningService.Aggregates | src/chips/compiler/learning.py:47-72 | the nested loops compute, for each memory named, the sum of its amounts and its counts by outcome |
| Learning.BriefLearningService.Recompute | src/chips/compiler/learning.py:34-101 | the tenant's rows become the clamped tally of the outcomes in scope, all other rows stay, and the number of memories is returned |
| Learning.BriefLearningService.MaybeRecompute | src/chips/compiler/learning.py:22-32 | does nothing within the interval of the tenant's last recompute, and otherwise recomputes and remembers the time |
| Learning.BriefLearningService.LoadAdjustments | src/chips/compiler/learning.py:103-113 | the adjustments stored under the tenant's key, each within a half of zero |
| Learning.OneBrief | src/chips/compiler/learning.py:45-80 | an accepted brief adds a twentieth of the memory's score, a rejected one takes off a tenth of it, an ignored one does nothing; the score counts as 0.1 at least, the result is kept within a half |
| Learning.ScoreFound | src/chips/compiler/learning.py:57-61 | the memory's score is that of the last memory signal with its id, and 0 without one |
| Learning.RecomputeThenLoad | src/chips/compiler/learning.py:74-113 | what is loaded after a recompute are the adjustments of the tenant's briefs |
| Learning.RecomputeOrderFree | src/chips/compiler/learning.py:47-72 | the order in which the outcomes are fetched does not matter |
| Learning.RecomputeForgets | src/chips/compiler/learning.py:74-97 | what the tenant's rows were before does not matter, and recomputing twice is recomputing once |
| Learning.TenantsApartIff | src/chips/compiler/learning.py:18-20 | a recompute for one tenant always leaves another's adjustments alone exactly when the two differ and are not the missing and the empty tenant, which share their rows; and then the two recomputes commute |
| Learning.RebuiltInRange | src/chips/compiler/learning.py:80 | every adjustment ever stored is within a half of zero |
| Learning.CountsConserved | src/chips/compiler/learning.py:63-72 | summed over the memories, each outcome's counts are the number of mentions with that outcome |
| Learning.StoredCounts | src/chips/compiler/learning.py:34-97 | the counts stored for a memory are its mentions by outcome, and in total they are the memories with a non-empty id that the recompute reads |
| Learning.OccurrencesCountedIff | src/chips/compiler/learning.py:34-97 | they never exceed the memories with a non-empty id that the briefs in scope hold, in text or parsed, and equal them exactly when no such brief has a parsed list that names one |
| Learning.ParsedBriefLost | src/chips/compiler/learning.py:48-51 | one brief whose parsed list names one memory: one occurs, none is counted |
| Learning.OneMoreOutcome | src/chips/compiler/learning.py:34-80 | one more accepted brief lowers no memory's adjustment, one more rejected brief raises none, an ignored one or another tenant's changes none |
| Learning.RejectionOffsets | src/chips/compiler/learning.py:45-72 | one rejection of a brief weighs as much as two acceptances: the three together change no adjustment |
| Learning.NothingLearnedIff | src/chips/compiler/learning.py:47-78 | a recompute leaves the tenant without rows exactly when no brief in scope names a memory in readable text |
| Retrieval.ApplyLearningAdjustments | src/chips/compiler/builder.py:109-123 | sets every memory's learned adjustment, 0 if there is none, and no other field, though memories may be aliased |
| Retrieval.Retrieve | src/chips/compiler/builder.py:403-413 | loading, attaching and deciding in sequence: every memory gets what is stored for it under the tenant, the governor's decision is the one without learning, and no memory's score moves by more than a half |
| Retrieval.MemoriesRanked | src/chips/compiler/ranker.py:47-60 | a memory is ranked by its similarity, if it has none by its confidence, plus what was learned, brought between 0 and 1 |
| Retrieval.GovernorReads | src/chips/compiler/governor.py:38-80 | the governor reads the mean of the same grades, triggers with enough memories at or above the threshold, and then skips diffs and file signals |
| Retrieval.LearningNeverDecides | src/chips/compiler/governor.py:45-80 | whatever was learned, the governor decides the same |
| Retrieval.GovernorTriggersIff | src/chips/compiler/governor.py:45-80 | triggers exactly with enough memories, at least one, whose similarities add up to the threshold for each; only then are sources skipped |
| Retrieval.LearningMovesLittle | src/chips/compiler/ranker.py:47-55 | an adjustment within a bound moves a score by at most the bound, and scores stay in [0,1] |
| Retrieval.LearningOrders | src/chips/compiler/ranker.py:47-55 | of two adjustments the higher gives the higher score, with equality exactly for equal adjustments or at the ends of the scale |
| Retrieval.GovernorOrderFree | src/chips/compiler/governor.py:45-80 | the decision does not depend on the order of the memories |
| Retrieval.OneMoreMemory | src/chips/compiler/governor.py:45-80 | once triggered, one more memory keeps it triggered exactly when the threshold's surplus pays for it; at or above the threshold always |
| Retrieval.RankingIs | src/chips/compiler/ranker.py:96 | the ranking lists every signal once, highest score first, equal scores in the order they came in |
| IssueRefs.IssueRefStore.HarvestIssueRefs | src/chips/harvester/issue_refs.py:171-181 | the batch loop writes one row for each reference up to the first rate limit and returns their counts by status, or stops with the exception of the first fetch that raises |
| IssueRefs.IssueRefStore.StoreIssueRef | src/chips/harvester/issue_refs.py:138-168 | inserts or replaces the row of the repository and reference |
| IssueRefs.QueueIs | src/chips/harvester/issue_refs.py:115-135 | pending are exactly the references of the corpus with no row or a rate-limited one, each once, in order |
| IssueRefs.ProcessedIs | src/chips/harvester/issue_refs.py:175-181 | records follow the references in order; only the last can be a rate limit; only a rate limit or a fetch that raises stops a batch early |
| IssueRefs.RowAfterBatch | src/chips/harvester/issue_refs.py:63-168 | the i-th reference has the row its answer calls for: 404 not found, 403 and 429 rate limited, 200 the body, anything else failed, no number skipped; every other row is as it was |
| IssueRefs.RaisesIff | src/chips/harvester/issue_refs.py:63-181 | a batch raises exactly when the first reference answered by a rate limit or by an unreadable 200 is answered by the latter |
| IssueRefs.QueueAfterBatch | src/chips/harvester/issue_refs.py:115-181 | a batch takes exactly the references it settled off the front of the queue; one that is rate-limited or unreadable stays at the head |
| IssueRefs.SettledIs | src/chips/harvester/issue_refs.py:63-181 | the settled references are those before the first that is blocked: an issue number answered 403, 429 or an unreadable 200; failures and foreign references are settled |
| IssueRefs.StaysPendingIff | src/chips/harvester/issue_refs.py:63-181 | of the references a call takes up, exactly those from the first blocked one on are still pending after it |
| IssueRefs.HeadBlocks | src/chips/harvester/issue_refs.py:115-181 | a reference at the head that is blocked every time keeps the whole queue waiting over any run, whatever the limits |
| IssueRefs.NumberedRef | src/chips/harvester/issue_refs.py:39-42 | a number written after "#", white space around it or not, is the number asked for |
| IssueRefs.NumberedIff | src/chips/harvester/issue_refs.py:20-42 | a reference has a number exactly when, trimmed, it is "#" and one or more digits |
| IssueRefs.SettledForGood | src/chips/harvester/issue_refs.py:115-181 | over any run, with any corpus, limits and answers: a settled reference's row never changes and no later call takes it up again |
| IssueRefs.Drains | src/chips/harvester/issue_refs.py:115-181 | with neither rate limits nor unreadable answers, calls with limits l1 to lm settle the first l1 + ... + lm references, in order |
| IssueRefs.DrainedIff | src/chips/harvester/issue_refs.py:115-181 | then n pending references are drained exactly when the limits of the calls add up to n or more |
| IssueRefs.DrainedByCallsIff | src/chips/harvester/issue_refs.py:115-181 | with one positive limit for all calls that takes ceil(n / limit) calls and not fewer |
| IssueRefs.CountsAreRows | src/chips/harvester/issue_refs.py:174-181 | the counts returned add up to the rows written |

## Left out

- Compressor.TrimPermutation: asks that items of equal rank are equal; that is necessary for the ranking (`Compressor.RankedAlikeIff`), but tight limits can hide a difference in the ranking from the result.
- Hypotheses.RankPermutation: needs distinct hypothesis ids; without them only the lists of violations can be exchanged (`Hypotheses.RankOrderFree`).
- Rounding of floats: scores, entropies and adjustments are exact reals; the `isclose` tolerance is modelled, `round(mean, 4)` of the governor is not.
- The logarithm is any function with the two laws, and the harvester's environment any that agrees with the entropy defined here; none is constructed.
- Wall-clock columns (`now()`, `captured_at`, `last_seen_at`), and the fragility columns of the snapshot log, which are a function of two other columns.
- `committed_at` is kept as text; reading it back through `isoformat` is taken to be the identity.
- Bodies of path classification and of the regex extraction of defect evidence: uninterpreted functions of path and message.
- JSON text and sha256 of the dedup identity: targets are JSON values, and text and hash are taken to be injective.
- JSON columns of the learning rows that decode to something other than a list.
- Whether a caller commits or rolls back the rows of a harvest that raised: the model keeps them, as the statements wrote them.
- The INSERT and the COMMIT of `add` are two steps of the concurrent model; the UPDATE and COMMIT of `retire` are one.
- `item_id` and the rendered heading of structural results: strings built from fields the model keeps.
- tree-sitter parsing, file reading, git's own quoting of paths, and git itself.
- `_trim_to_budget`, the prompt and the HTTP call of the compressor, and tokenizers: the token count is any function with value at least 1.
- File and diff signals of the ranker with their exponential recency: they enter the final sort as given.
- Issue numbers are read in ASCII digits; the stored columns of an issue are one opaque body, and whether a body can be read as an issue is part of the answer.
- `effective_allowed_edits`, the renderers of constraints, the policy loader, the probe cache, yield and assay scores: each is settled by reading one or two branches.
- MCP modules, observability, export, enrichment and migrations other than 007's index.
