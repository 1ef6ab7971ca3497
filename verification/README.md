# Verified model of the log processing and forensics core

This project models, in Dafny, five parts of a log pipeline for perimeter firewalls and proves what
they promise: the Merkle tree of RFC 6962 with its inclusion and consistency proofs, the integrity plane
that writes blocks and a ledger and audits them again, the Drain template miner, the signature cache with
the three-tier pipeline around it, and the small field scanners with an inverse.

`dafny verify dfyconfig.toml` checks everything. One module per file:

| files | about |
|---|---|
| `PowersOfTwo`, `Digests`, `MerkleSpec`, `MerkleTree`, `MerkleVerifier`, `MerkleProofTheory`, `MerkleSoundness`, `MerkleSizes`, `MerkleExample` | the Merkle tree: specification, builder and generators, verifiers, and the theorems between them, also under sizes the caller only names, and the worked example of the RFC |
| `Decimal`, `Storage`, `Auditor`, `AuditReport`, `Batcher`, `LedgerRuns`, `BatchTriggers` | columns and files, the forensic auditor and what its report holds, the batch accumulator, every run of it with failed writes and restarts, and what makes it write |
| `Drain`, `DrainIndex`, `DrainRuns`, `DrainRouting`, `DrainResults`, `DrainLimits` | the template miner, its prefix tree as an index, every run of it, which logs meet in the tree, what is answered and recorded for each log, and the configurations for which its promises about anchors hold |
| `SignatureCache`, `CacheRuns`, `UniversalParser`, `Signatures`, `Pipeline`, `PipelineQueue`, `PipelineExact`, `Lossless` | the sharded cache, every run of it, parsing with and without it, the text a signature is made of, concurrent calls as interleaved steps, which clusters reach the worker, when calls answer like plain parsing, and what every event carries |
| `Text`, `TextLaws`, `Ocsf`, `Kaggle`, `KaggleEvents`, `KagglePairs`, `KaggleGenerator`, `KaggleTranslation`, `CsvScanner`, `KvTokenizer` | string operations and what they keep of a text, the event, the CSV and syslog branches, the event field by field, the pairs of a syslog line, the generator between them and what it keeps of a row, and two quote-aware scanners |
| `Options`, `Sequences` | optional values and results, lists without repetitions |

How the model is put together:

- SHA-256 is an arbitrary function from byte strings to 32 bytes. No property of it is assumed. Every
  soundness theorem ends in "or this pair collides", where a function computes the pair from the proof and
  the tree, so a false acceptance hands over a collision. The prefixes `0x00` and `0x01` are needed for that:
  without them two logs and one made of their digests have the same root for every hash function
  (`UnprefixedRootDoesNotBind`).
- Code that changes state is a class or a method proved against a function of the old state; the lemmas are
  about that function, and about every run built from it.
- Clocks, fresh ids and the outcome of writes are inputs. Classification, vendor extractors, masking and
  tokenising are arbitrary functions, and so are signatures outside `Signatures`.

Where the code does less than its documentation or its names say, the code is modelled, an input that shows
it is given, and the condition under which the promise does hold is proved to be the exact one:

- The inclusion verifier only range-checks the leaf index against the size the caller names
  (`merkle.rs:388-413`). Any leaf's proof is accepted for any index and any size above 1 (`IndexNotBound`), so
  neither is bound. Membership is sound all the same (`InclusionSound`), and a check of the path's sides is
  exactly what is missing (`InclusionExact`, `SidesRefuseMisplaced`).
- Nor does the consistency verifier bind the sizes it is told (`merkle.rs:416-435`): for four leaves it takes
  the root of the first two under sizes 1 and 2 (`SizesNotBound`, `FourAsTwo`). With the true size the proof is
  the genuine one (`ConsistencySound`); under any named sizes the old root is still that of a non-empty prefix,
  or a computed pair collides (`ConsistencySoundAnySizes`, `EarlierIsPrefix`).
- The audit of a block file looks at indices, raw logs and stored digests only: event ids, times, vendors and
  event texts may be altered unseen (`VerdictExact`). The entry is chosen by the first row, so the file of
  another committed block is judged untampered under any name; the id in its first row tells, exactly
  (`MisplacedFileAccepted`).
- Anchors "must NEVER be merged into a wildcard" (`drain.rs:25-27`). By default `ALLOW` is, by `allow`
  (`AnchorMergedIntoWildcard`). The promise holds of every run exactly when only full matches merge or no
  anchor can be spelled in another case (`AnchorsNeverMergedExact`), and of one cluster exactly when its logs
  spell the anchor one way (`AnchorLostIffCaseVariant`). What holds always is that all anchors a cluster's logs
  carry at a position are the one of its first log (`AnchorsInviolable`); the one exception is an anchor `<*>`
  (`WildcardAnchorExact`).
- A log that just started a cluster is not always found again: a full node on its path sends the insertion
  to `*` and later searches to the node's own child. Then every repetition starts one more cluster, and so
  another tier-3 dispatch; otherwise only the first does (`RepetitionsExact`, reached in `EveryRepetitionNew`).
- The signature cache is called LRU; a lookup moves nothing and eviction is first in, first out
  (`ShardIsFifo`). It can evict the key used last (`RecentKeyEvicted`), and is LRU exactly for capacities of at
  most one key a shard (`LruExact`).
- The cache may stand in for the classifier exactly when formats of one signature are interchangeable
  (`CachedParsingExact`). They are not: what follows the third word of a log without anchors is not signed
  (`SameHeadSameSignature`), so `x y z firewall-kaggle` and `x y z filterlog` have one signature under every hash
  (`OneSignature`), and once the first is cached the second yields another event (`CachedParseDiffers`; that the
  classifier answers Kaggle and pfSense for them, and what the pfSense extractor says, are hypotheses there).
  The pipeline needs a little less, since it classifies afresh when a parse fails (`ProcessExact`).
- A row of ten or eleven columns goes through the generator with packet counts of `0` it does not have, quotes
  or further words in a column are dropped on the way, and a pair behind a column's first word is believed
  (`PairInColumnBelieved`). For every row the generator takes, the meaning is kept exactly when the row is no
  header and the fields it is heard with are its own (`MeaningKeptExact`). For CSV rows: exactly when no stray
  pair has a name of its own and for every field the last pair hidden in its column or a later one, if any,
  parses like the column (`HiddenPairsExact`); without hidden pairs, exactly when there are twelve columns and
  none hides a value behind quotes or further words (`TranslationExact`).
- The key-value tokenizer slices one byte behind the last white space before an equals sign
  (`fortigate.rs:32-33`). Where that character takes several bytes the slice panics (`KeyAfterSeparator`); a text
  whose white space is all of one byte is read to its end (`NoPanic`).
- When the final sync of the ledger file fails, the line is on disk and not in memory (`MemoryBehindDisk`). The
  two ledgers are equal exactly when no flush since the last restart failed its sync (`MemoryIsDiskExact`). The
  branch is taken from the text of the code, which returns when `flush` of the file fails; the standard library
  documents that call as doing nothing for a `File` on Unix and Windows. A write that fails between the entry
  and its newline would have the same effect; it is excluded here, since a line is appended whole or not at all.

## Model

| member | source | states |
|---|---|---|
| PowersOfTwo.LargestPowerOfTwoLessThan | crates/ulpf-integrity/src/merkle.rs:119-125 | the shift and leading-zeros formula gives the split point for every size above 1 that a word of any width holds |
| PowersOfTwo.SplitUnique | crates/ulpf-integrity/src/merkle.rs:117-125 | the split point is the one power of two k with k < n <= 2k |
| PowersOfTwo.SplitStable | crates/ulpf-integrity/src/merkle.rs:463-482 | an old size between the split point and n is split where n is |
| Digests.ClashIsCollision | crates/ulpf-integrity/src/merkle.rs:102-109 | two different pairs of children with one parent are two different inputs of the hash with one digest |
| Digests.HexInjective | crates/ulpf-integrity/src/merkle.rs:31-33 | different byte strings have different hexadecimal text |
| Digests.HexOfByte | crates/ulpf-integrity/src/merkle.rs:31-33 | each byte is two lower-case hexadecimal digits, high half first |
| MerkleSpec.RootOfLeafHashes | crates/ulpf-integrity/src/merkle.rs:245-281 | the root over hashed leaves is the Merkle tree hash of section 2.1 of RFC 6962 over the raw entries, the empty list included |
| MerkleSpec.SliceSubproof | crates/ulpf-integrity/src/merkle.rs:351-373 | the subproof of a slice of leaves is that of the range it was cut from |
| MerkleSpec.RangePathSides | crates/ulpf-integrity/src/merkle.rs:160-178 | the sides of an audit path depend on the position and the tree size only |
| MerkleSpec.AuditPathLength | crates/ulpf-integrity/src/merkle.rs:160-178 | a tree of at most 2^e leaves has audit paths of at most e steps |
| MerkleTree.BuildSubtreeCorrect | crates/ulpf-integrity/src/merkle.rs:261-280 | the built tree has the root of the specification, each internal size is the leaf count below it, and the leaves stand in order with their indices |
| MerkleTree.CollectAuditPath | crates/ulpf-integrity/src/merkle.rs:160-178 | collecting pushes exactly the audit path of section 2.1.1 of RFC 6962 after what the vector held |
| MerkleTree.FromRawLogsRoot | crates/ulpf-integrity/src/merkle.rs:232-280 | the root reported for a list of logs is its Merkle tree hash |
| MerkleTree.GetInclusionProof | crates/ulpf-integrity/src/merkle.rs:314-333 | the genuine path for every index in range; the two errors exactly for the empty tree and an index out of range |
| MerkleTree.GenerateSubproof | crates/ulpf-integrity/src/merkle.rs:351-373 | the recursion on slices, with the root of a tree built over each slice pushed last, yields SUBPROOF of section 2.1.2 of RFC 6962 |
| MerkleTree.GetConsistencyProof | crates/ulpf-integrity/src/merkle.rs:337-347 | that proof for sizes from 1 to the tree size, none of it for the whole tree, and the error for any other size |
| MerkleVerifier.VerifyInclusionProofByHash | crates/ulpf-integrity/src/merkle.rs:388-413 | the loop accepts exactly when the index is in range and the climb along the path ends in the expected root (a single leaf: empty path and equal hash) |
| MerkleVerifier.VerifyInclusionProof | crates/ulpf-integrity/src/merkle.rs:376-385 | the same for the leaf hash of raw bytes |
| MerkleVerifier.VerifySubproofFull | crates/ulpf-integrity/src/merkle.rs:463-482 | popping the shared vector computes both roots of the right-hand part and leaves the rest of the vector, or fails |
| MerkleVerifier.VerifyConsistencyInternal | crates/ulpf-integrity/src/merkle.rs:437-461 | popping the shared vector rebuilds the new root from the old one, or fails |
| MerkleVerifier.VerifyConsistencyProof | crates/ulpf-integrity/src/merkle.rs:416-435 | accepts exactly when the rebuilt root is the current root and nothing is left on the vector |
| MerkleProofTheory.SidesPinPath | crates/ulpf-integrity/src/merkle.rs:388-413 | for any way to combine children: a climb with the sides of position i that reaches the root starts at leaf i and has the genuine siblings, or a computed pair of children clashes |
| MerkleProofTheory.ClimbOfRangePath | crates/ulpf-integrity/src/merkle.rs:160-178 | climbing the generated path from its leaf ends in the root of its range |
| MerkleProofTheory.SubproofSound | crates/ulpf-integrity/src/merkle.rs:463-482 | if the full verifier's new root is genuine, so is its old root, and the stack is what the generator pushes on what it left, or a clash |
| MerkleProofTheory.RebuildSound | crates/ulpf-integrity/src/merkle.rs:437-461 | if the rebuilt root is genuine, the old root is that of the first m leaves, and the stack is the generated one, or a clash |
| MerkleProofTheory.SubproofComplete | crates/ulpf-integrity/src/merkle.rs:351-373 | the full verifier pops exactly what SUBPROOF pushed, whatever lies below it, and recovers both roots |
| MerkleProofTheory.RebuildComplete | crates/ulpf-integrity/src/merkle.rs:351-373 | so does the outer verifier, given the old root |
| MerkleProofTheory.StackOfSubproof | crates/ulpf-integrity/src/merkle.rs:351-373 | the generated vector, read from its end, is what the pushing recursion leaves |
| MerkleSoundness.RootBindsLogs | crates/ulpf-integrity/src/merkle.rs:95-115 | two log lists of any lengths with one root are equal, or a computed pair collides |
| MerkleSoundness.InclusionSound | crates/ulpf-integrity/src/merkle.rs:376-413 | raw bytes accepted against the root of a log list are one of the logs, whatever index, size and path came along, or a computed pair collides |
| MerkleSoundness.InclusionComplete | crates/ulpf-integrity/src/merkle.rs:314-333 | the proof of every index is accepted |
| MerkleSoundness.InclusionExact | crates/ulpf-integrity/src/merkle.rs:388-413 | accepted with the sides of i if and only if it is leaf i with its genuine path, unless a computed pair collides |
| MerkleSoundness.IndexNotBound | crates/ulpf-integrity/src/merkle.rs:388-413 | the proof of any leaf is accepted for any index below any named size above 1, and for size 1 exactly when that is the size |
| MerkleSoundness.SidesTellPosition | crates/ulpf-integrity/src/merkle.rs:160-178 | two positions of a tree have the same sides exactly when they are the same |
| MerkleSoundness.SidesRefuseMisplaced | crates/ulpf-integrity/src/merkle.rs:388-413 | the sides of a genuine proof are those of i exactly when it is the proof of leaf i |
| MerkleSoundness.UnprefixedRootDoesNotBind | crates/ulpf-integrity/src/merkle.rs:95-109 | without the prefixes two logs and the one log made of their digests have one root, for every hash function |
| MerkleSoundness.ConsistencySound | crates/ulpf-integrity/src/merkle.rs:416-482 | an accepted proof, from whomever, means the old root is the root of the first m leaves and the proof is the generated one, or a computed pair collides |
| MerkleSoundness.ConsistencyBindsPrefix | crates/ulpf-integrity/src/merkle.rs:416-482 | any log list with the accepted old root is the prefix of the new list, or one of two computed pairs collides |
| MerkleSoundness.ConsistencyComplete | crates/ulpf-integrity/src/merkle.rs:337-373 | for every list and every 1 <= m <= n the generated proof is accepted for the two roots |
| MerkleSizes.SizesNotBound | crates/ulpf-integrity/src/merkle.rs:416-461 | for every list of two leaves or more a proof is accepted under sizes 1 and 2, with the root of the leaves left of the split as old root |
| MerkleSizes.FourAsTwo | crates/ulpf-integrity/src/merkle.rs:416-461 | for four leaves: the root of the first two, under sizes 1 and 2 |
| MerkleSizes.SubproofFindsPrefix | crates/ulpf-integrity/src/merkle.rs:463-482 | under any named sizes: if the full verifier's new root is that of a log list, its old root is that of a non-empty prefix of the list, or a computed pair collides |
| MerkleSizes.RebuildFindsPrefix | crates/ulpf-integrity/src/merkle.rs:437-461 | the same for the outer recursion and the old root it is given |
| MerkleSizes.ConsistencySoundAnySizes | crates/ulpf-integrity/src/merkle.rs:416-482 | an accepted proof under any named sizes means the old root is that of a non-empty prefix, or a computed pair collides |
| MerkleSizes.EarlierIsPrefix | crates/ulpf-integrity/src/merkle.rs:416-482 | any earlier list with the accepted old root is a prefix of the new list, whatever sizes were named, or one of two computed pairs collides |
| MerkleExample.SmallTrees | crates/ulpf-integrity/src/merkle.rs:95-115 | the roots of no, one, two and three logs, down to the bytes hashed: `0x00` before a log, `0x01` before two digests, left one first |
| MerkleExample.ListedPaths | crates/ulpf-integrity/src/merkle.rs:160-178 | in a tree of seven leaves the audit paths of leaves 0, 3, 4 and 6 are those listed in section 2.1.3 of RFC 6962, lowest sibling first, each with its side |
| MerkleExample.ListedProofs | crates/ulpf-integrity/src/merkle.rs:351-373 | and the proofs from three, four and six leaves to seven are those listed there |
| Decimal.ParseOfDecimal | crates/ulpf-integrity/src/tamper.rs:209-211 | parsing a formatted number gives it back exactly when the type holds it |
| Decimal.DecimalInjective | crates/ulpf-ai/src/drain.rs:336-337 | different numbers have different numerals |
| Decimal.PaddingKeepsValue | crates/ulpf-integrity/src/batcher.rs:266 | zeros on the left do not change the value of a numeral |
| Decimal.ParseUnsignedExact | crates/ulpf-core/src/parser/extractors/kaggle.rs:109-120 | a text parses exactly when it is digits after at most one plus sign, at least one of them, and their value is below the limit of the type |
| Storage.RecordsToBatch | crates/ulpf-integrity/src/storage.rs:76-111 | the loop fills the eight columns with the rows, in order |
| Storage.BatchToRecords | crates/ulpf-integrity/src/storage.rs:114-160 | the loop returns the rows of the columns, in order |
| Storage.RowsOfBatchOf | crates/ulpf-integrity/src/storage.rs:76-160 | rows survive the way into columns and back |
| Storage.ReadParquetFile | crates/ulpf-integrity/src/storage.rs:203-222 | reading concatenates the rows of the batches, in order |
| Storage.ReadBackRows | crates/ulpf-integrity/src/storage.rs:214-221 | however the written columns are cut into batches, the rows read back are the rows written |
| Storage.BlockIdOfBlockStem | crates/ulpf-integrity/src/tamper.rs:202-211 | the block id read off a block's own file name is the block's |
| Storage.BlockFileNameInjective | crates/ulpf-integrity/src/batcher.rs:266-267 | no two blocks share a file |
| Storage.BlockFileSpelled | crates/ulpf-integrity/src/batcher.rs:266 | a block's file is `block_`, its id in five digits or as many as it takes, and `.parquet` |
| Storage.OtherStems | crates/ulpf-integrity/src/tamper.rs:202-211 | a name without the prefix, or with no 64-bit number behind it, stands for block 0 |
| Auditor.VerifyRows | crates/ulpf-integrity/src/tamper.rs:249-286 | the loop appends, row by row, an index finding and then a digest finding where they are due |
| Auditor.VerifyRecords | crates/ulpf-integrity/src/tamper.rs:229-332 | valid exactly when no finding is reported, exactly when count, every index, every stored digest and the root match; the findings are those `AuditReport` pins down one by one |
| Auditor.FindingsEmpty | crates/ulpf-integrity/src/tamper.rs:229-309 | nothing is reported exactly when nothing was tampered with |
| Auditor.RowFindingReported | crates/ulpf-integrity/src/tamper.rs:249-286 | every wrong row is reported, every finding about it |
| Auditor.ReportedFindingHasRow | crates/ulpf-integrity/src/tamper.rs:249-286 | every row finding is about a row that is wrong |
| AuditReport.ReportExact | crates/ulpf-integrity/src/tamper.rs:229-309 | a finding is in the report if and only if it is due: a differing count; an index that is not the row's place cut to 32 bits; a stored digest that is not that of the raw log; a differing root when nothing else is wrong; each with the values of its row, whatever else is wrong |
| AuditReport.RowDefectsReported | crates/ulpf-integrity/src/tamper.rs:249-286 | the findings of a row stand right behind those of the rows before it, index before digest |
| AuditReport.BlockReported | crates/ulpf-integrity/src/tamper.rs:235-309 | a differing count comes first, a differing root is blamed alone |
| AuditReport.ReportSize | crates/ulpf-integrity/src/tamper.rs:229-309 | there are as many findings as defects |
| Auditor.ValidRowsAreTheBlock | crates/ulpf-integrity/src/tamper.rs:288-309 | rows judged valid against the entry of a block carry that block's raw logs in order, or a computed pair collides |
| Auditor.VerdictExact | crates/ulpf-integrity/src/tamper.rs:229-332 | beside rows judged valid, other rows are judged valid if and only if they have the same indices, raw logs and stored digests, whatever their other columns, or a computed pair collides |
| Auditor.FirstEntryExact | crates/ulpf-integrity/src/tamper.rs:213-223 | the entry found is the first one of the block, and none is found only where there is none |
| Auditor.TargetExact | crates/ulpf-integrity/src/tamper.rs:197-211 | the block of the first row wins over the file's name; a file without rows is the block it is named after |
| Auditor.VerifyBlockWithLedger | crates/ulpf-integrity/src/tamper.rs:191-226 | the verdict is against the first entry with the block's id, taken from the first row or else from the file name; the error exactly when there is none |
| Batcher.BatchAccumulator.constructor | crates/ulpf-integrity/src/batcher.rs:122-141 | a new accumulator starts empty, with the ledger on disk in memory and the id after its last entry |
| Batcher.BatchAccumulator.Push | crates/ulpf-integrity/src/batcher.rs:182-193 | the whole new state and the returned result, flush included |
| Batcher.BatchAccumulator.CheckTimeout | crates/ulpf-integrity/src/batcher.rs:196-208 | flushes exactly when the buffer is not empty and the time since its first log, cut off at 0, is at least the limit; the whole new state and the result |
| Batcher.BatchAccumulator.ShouldFlushNow | crates/ulpf-integrity/src/batcher.rs:211-223 | true exactly when the buffer is not empty and its size is at least the limit or the time since its first log is |
| Batcher.BatchAccumulator.Flush | crates/ulpf-integrity/src/batcher.rs:226-310 | the whole new state of accumulator and disk under each outcome of the two writes: buffer and id are taken first, the ledger line comes last |
| Batcher.BuildRecords | crates/ulpf-integrity/src/batcher.rs:240-258 | the stored rows, with the defaults for id, time and event text |
| LedgerRuns.Conservation | crates/ulpf-integrity/src/batcher.rs:182-291 | over every run, committed and lost blocks followed by the buffer are the pushed logs, in order, each once |
| LedgerRuns.NothingLost | crates/ulpf-integrity/src/batcher.rs:226-291 | every fate is a committed block if and only if no flush of a non-empty buffer failed to write its block or its ledger line and no restart met a non-empty buffer |
| LedgerRuns.MemoryIsDiskExact | crates/ulpf-integrity/src/batcher.rs:281-310 | the ledger in memory equals the one on disk if and only if no flush since the last restart failed its sync |
| LedgerRuns.MemoryBehindDisk | crates/ulpf-integrity/src/batcher.rs:293-310 | a run in which they differ: one push that fills a batch of one, with a failed sync |
| LedgerRuns.RunInv | crates/ulpf-integrity/src/batcher.rs:182-310 | in every reachable state the timer is set iff the buffer is not empty, the buffer is below the flush size, ledgers are in order, and every committed block is whole on disk and fits its entry |
| BatchTriggers.TimerIsOldestArrival | crates/ulpf-integrity/src/batcher.rs:170-186 | in every reachable state the timer is the clock reading of the push that brought the log at the front of the buffer |
| BatchTriggers.TriggersExact | crates/ulpf-integrity/src/batcher.rs:182-223 | every push and timeout check of every run empties the buffer if and only if the size is reached (for a push) or the oldest log waiting has reached the age limit at its reading; otherwise the buffer grows by the push only |
| BatchTriggers.NothingOutstaysLimit | crates/ulpf-integrity/src/batcher.rs:182-208 | what a push or a timeout check leaves waiting is younger than the limit at its reading, and fewer logs than the size |
| BatchTriggers.IdsTaken | crates/ulpf-integrity/src/batcher.rs:226-237 | a call takes one block id exactly when it empties the buffer, whatever becomes of its writes; a restart goes on behind the last line on disk |
| BatchTriggers.LinesWritten | crates/ulpf-integrity/src/batcher.rs:274-310 | such a call adds the line of its block, with count, root and time, to disk and memory as far as its writes go; no other call adds one |
| BatchTriggers.FilesWritten | crates/ulpf-integrity/src/batcher.rs:265-272 | it touches the file of its own block only: whole, or as its failed write leaves it |
| BatchTriggers.ReturnedIsWritten | crates/ulpf-integrity/src/batcher.rs:284-290 | the block id, root and count returned are those of the line written; an error exactly when a write failed |
| LedgerRuns.LedgerOrder | crates/ulpf-integrity/src/batcher.rs:122-141 | under any mix of successful flushes, failed flushes and restarts, ids on disk strictly increase below the next id, memory is a subsequence of disk, and the lookup by id is unique |
| LedgerRuns.CommittedBlocksReadable | crates/ulpf-integrity/src/batcher.rs:265-282 | the file of every committed block is complete and can be read whole |
| LedgerRuns.SelfAudit | crates/ulpf-integrity/src/tamper.rs:191-226 | a committed block read back under any cut into batches is looked up under its own entry, judged untampered, and has 1 to max(1, batch size) rows carrying its logs in order |
| LedgerRuns.RowsCarryLogs | crates/ulpf-integrity/src/batcher.rs:240-258 | the rows of a committed block, read back under any cut, carry its logs in order: raw text, vendor, digest, index, block id, and id, time and event text where the log has them, else the ledger line's time and `{}` |
| LedgerRuns.MisplacedFileAccepted | crates/ulpf-integrity/src/tamper.rs:191-226 | a committed block's file under the name of any block is looked up under its own entry and judged untampered; the id in its first row is the one the name says if and only if the name is its own |
| LedgerRuns.AcceptedRowsAreCommitted | crates/ulpf-integrity/src/tamper.rs:229-332 | any rows judged valid against a committed entry are that block's logs, or a computed pair collides |
| Drain.ComputeSimilarity | crates/ulpf-ai/src/drain.rs:431-460 | the two loops compute the share of fitting positions, and 0 for other lengths or a clash of anchors |
| Drain.MatchCountCounts | crates/ulpf-ai/src/drain.rs:454-459 | the count of matches is the number of positions with a wildcard or the same token |
| Drain.BestIsCandidate | crates/ulpf-ai/src/drain.rs:367-390 | a match is a candidate of the log's size whose similarity is positive and reaches the threshold |
| Drain.DrainMiner.constructor | crates/ulpf-ai/src/drain.rs:193-202 | a new miner is empty and its first id is 1 |
| Drain.DrainMiner.Search | crates/ulpf-ai/src/drain.rs:335-391 | the walk and the comparison loop find what the recursive search finds, which `DrainRouting` describes |
| Drain.DrainMiner.Add | crates/ulpf-ai/src/drain.rs:207-308 | the whole new state and the result: counted only, merged, or the start of a cluster |
| Drain.UpdateCluster | crates/ulpf-ai/src/drain.rs:118-136 | the loop turns every position that differs into the wildcard and rejoins the template if one changed |
| DrainIndex.TreeIds | crates/ulpf-ai/src/drain.rs:394-425 | an insertion adds its id at the end of one node and changes no other |
| DrainIndex.InsertKeepsIndexed | crates/ulpf-ai/src/drain.rs:394-425 | a new cluster keeps the tree an index: each id at exactly one place, under the key of its length |
| DrainIndex.CandidatesHaveSize | crates/ulpf-ai/src/drain.rs:371-375 | in an indexed state the size filter of the search never fires |
| DrainIndex.BestIsFirstMaximum | crates/ulpf-ai/src/drain.rs:367-390 | the result is the first candidate of maximal similarity exactly when that is positive and reaches the threshold, else none |
| DrainIndex.SearchFollowsInsert | crates/ulpf-ai/src/drain.rs:335-425 | unless shadowed, a search after an insertion ends where the insertion did |
| DrainIndex.ShadowMisleadsSearch | crates/ulpf-ai/src/drain.rs:335-425 | when shadowed it does not |
| DrainIndex.ShadowedSearchUnchanged | crates/ulpf-ai/src/drain.rs:335-425 | when shadowed the search after the insertion ends where it ended before |
| DrainIndex.ShadowPersists | crates/ulpf-ai/src/drain.rs:394-425 | a shadowed path stays shadowed by the insertion |
| DrainRouting.ComparedWithNewCluster | crates/ulpf-ai/src/drain.rs:335-425 | from any indexed state: after a log has started a cluster on an unshadowed path, any log of its length that has, at each of the first depth - 2 positions, the same token or like it a parameter or a token with an ASCII digit, is compared with that cluster |
| DrainRouting.SecondLogExact | crates/ulpf-ai/src/drain.rs:207-466 | for any configuration and any two logs the second one joins the first one's cluster if and only if they have one length, the tree leads it there (position by position), no anchor stands against something else, and the share of equal or `<*>` positions is positive and reaches the threshold |
| DrainRuns.StepKeepsInv | crates/ulpf-ai/src/drain.rs:207-308 | one log keeps every invariant, whether merged, new or without tokens |
| DrainRuns.TemplatesExact | crates/ulpf-ai/src/drain.rs:101-136 | in every reachable state a template has the common token where all assigned logs agree and `<*>` elsewhere; its text is the join; its count is the number of logs |
| DrainRuns.AnchorsInviolable | crates/ulpf-ai/src/drain.rs:440-451 | over every run, whatever anchor a log of a cluster has at a position is the one of the cluster's first log |
| DrainRuns.AnchorLostIffCaseVariant | crates/ulpf-ai/src/drain.rs:118-136 | the template has `<*>` where the first log has an anchor exactly when some log spells that anchor in another case |
| DrainRuns.TreeIsIndex | crates/ulpf-ai/src/drain.rs:394-425 | in every reachable state ids are exactly 1 to next-1 and each occurs at exactly one place, under the key of its cluster's size |
| DrainRuns.CountsAddUp | crates/ulpf-ai/src/drain.rs:207-308 | the counts of all clusters sum to the number of logs with tokens |
| DrainResults.ResultExact | crates/ulpf-ai/src/drain.rs:207-308 | the result names the cluster the log is in now, with its text and as new exactly when it is; no other cluster changes |
| DrainResults.SimilarityAnswered | crates/ulpf-ai/src/drain.rs:367-390 | the similarity answered is the highest of all candidates, and the log is merged exactly when it is positive and reaches the threshold |
| DrainResults.HistoryIsAssigned | crates/ulpf-ai/src/drain.rs:207-308 | the logs a template generalises are those answered with its cluster |
| DrainResults.TimesExact | crates/ulpf-ai/src/drain.rs:101-136 | in every reachable state a cluster was created at its first log and last seen at its last one |
| DrainResults.TemplateTextSplits | crates/ulpf-ai/src/drain.rs:102 | splitting a template's text at spaces gives its tokens back when none holds a space |
| DrainResults.NothingToMine | crates/ulpf-ai/src/drain.rs:218-228 | a log without tokens is counted and nothing else |
| DrainRuns.ReaddExact | crates/ulpf-ai/src/drain.rs:335-425 | re-adding a log finds the cluster it just started with similarity 1 exactly when the threshold is at most 1 and no full node on its path has a child for its token |
| DrainRuns.ReaddAfterRun | crates/ulpf-ai/src/drain.rs:207-308 | the same for two consecutive calls after any run; the second starts another cluster if and only if the threshold is above 1 or the path is shadowed |
| DrainRuns.RepetitionsExact | crates/ulpf-ai/src/drain.rs:207-308 | any number k of repetitions of a log that starts a cluster start k clusters under that condition, and one otherwise |
| DrainRuns.EveryRepetitionNew | crates/ulpf-ai/src/drain.rs:394-425 | a configuration and a first log after which every repetition of a second log starts a cluster |
| DrainLimits.AnchorsNeverMergedExact | crates/ulpf-ai/src/drain.rs:25-27 | no anchor position of any run becomes the wildcard if and only if the threshold is at least 1 or no anchor has a letter that can be spelled in another case |
| DrainLimits.SpelledAlikeAnchorsStay | crates/ulpf-ai/src/drain.rs:118-136 | inputs that spell their anchors alike lose no anchor position |
| DrainLimits.AnchorMergedIntoWildcard | crates/ulpf-ai/src/drain.rs:28-51 | by default `ALLOW`, `allow` and `open` end in one cluster with `<*>` in their place |
| DrainLimits.WildcardAnchorExact | crates/ulpf-ai/src/drain.rs:440-451 | anchors, the wildcard included, are kept in every run if and only if `<*>` is no anchor or the threshold is at least 1 |
| DrainLimits.WildcardAnchorNotKept | crates/ulpf-ai/src/drain.rs:440-451 | a run that does not keep a configured anchor `<*>`, for any threshold below 1 |
| SignatureCache.Shard.Insert | crates/ulpf-core/src/parser/lru_cache.rs:62-79 | the whole new shard and whether a key was evicted |
| SignatureCache.ShardIndex | crates/ulpf-core/src/parser/lru_cache.rs:173-195 | the masked signature is its remainder by the number of shards |
| SignatureCache.SignatureLruCache.constructor | crates/ulpf-core/src/parser/lru_cache.rs:103-120 | a cache of distinct empty shards |
| SignatureCache.SignatureLruCache.Get | crates/ulpf-core/src/parser/lru_cache.rs:173-186 | the answer, one counter up, entries unchanged |
| SignatureCache.SignatureLruCache.Insert | crates/ulpf-core/src/parser/lru_cache.rs:189-195 | one shard changed, the eviction counted |
| CacheRuns.ShardQueueOk | crates/ulpf-core/src/parser/lru_cache.rs:62-79 | over every run the queue lists each key once and a shard holds at most max(1, capacity) entries |
| CacheRuns.ShardIsFifo | crates/ulpf-core/src/parser/lru_cache.rs:62-79 | the queue is the fresh insertions in order, less as many from the front as were evicted |
| CacheRuns.LruExact | crates/ulpf-core/src/parser/lru_cache.rs:58-79 | every eviction of every run takes the least recently used key of its shard if and only if the capacity is at most 1 |
| CacheRuns.RecentKeyEvicted | crates/ulpf-core/src/parser/lru_cache.rs:58-79 | a run that evicts the key used last and keeps the other |
| CacheRuns.PresentIsLastPut | crates/ulpf-core/src/parser/lru_cache.rs:58-79 | a key that is present has the value put last |
| CacheRuns.ShardsAreIndependent | crates/ulpf-core/src/parser/lru_cache.rs:173-195 | each shard is a cache of its own for the keys with its remainder |
| CacheRuns.CacheRefinesMap | crates/ulpf-core/src/parser/lru_cache.rs:173-195 | a hit answers what an unbounded map would hold |
| CacheRuns.EveryShardOk | crates/ulpf-core/src/parser/lru_cache.rs:173-195 | every shard of every reachable cache keeps its queue and bound and holds only keys of its remainder |
| CacheRuns.CountersBalance | crates/ulpf-core/src/parser/lru_cache.rs:198-222 | evictions plus entries are the fresh insertions; hits plus misses are the lookups |
| CacheRuns.HitsAreAnswers | crates/ulpf-core/src/parser/lru_cache.rs:173-186 | hits are the lookups answered and misses the others |
| CacheRuns.PutIsFound | crates/ulpf-core/src/parser/lru_cache.rs:189-195 | what was put last is found |
| CacheRuns.KeyGoesExactly | crates/ulpf-core/src/parser/lru_cache.rs:58-79 | an operation removes a key if and only if it inserts a fresh key into its full shard and it is the oldest there |
| UniversalParser.Parser.ParseCached | crates/ulpf-core/src/parser/mod.rs:157-171 | the result and the whole new cache: classify and fill on a miss, never with an unknown format |
| UniversalParser.Parser.ParseCachedLosslessly | crates/ulpf-core/src/parser/mod.rs:174-201 | the same with the fallback event; the event carries the log, its digest, and the id and time of one reading |
| UniversalParser.CachedRunJustified | crates/ulpf-core/src/parser/mod.rs:157-171 | every cached format is known and classifies an earlier log of that signature |
| UniversalParser.CachedParsingExact | crates/ulpf-core/src/parser/mod.rs:157-201 | cached parsing always agrees with plain parsing exactly when formats of one signature are interchangeable |
| UniversalParser.CachedParsingRefinesPlain | crates/ulpf-core/src/parser/mod.rs:157-201 | when a signature tells the format, the cached parse returns the plain event, whatever was parsed before |
| Lossless.LosslessExact | crates/ulpf-core/src/parser/mod.rs:93-120 | for any format the event is the extraction with log, digest, id and ingest time written in, or, when the format is unknown or the extractor fails, an empty event with exactly the reason as `parse_error` and the same four |
| Lossless.CachedCarries | crates/ulpf-core/src/parser/mod.rs:174-201 | so it is for every cache state: parsing through the cache loses no log |
| Signatures.SameHeadSameSignature | crates/ulpf-core/src/parser/lru_cache.rs:125-169 | two logs without anchor characters that begin with the same three counting words have one signature, for every hash and however they go on |
| Signatures.OneSignature | crates/ulpf-core/src/parser/lru_cache.rs:125-169 | `x y z firewall-kaggle` and `x y z filterlog` are two such logs |
| Signatures.AsaTagIsSigned | crates/ulpf-core/src/parser/lru_cache.rs:140-143 | of a log with an ASA tag in the window only the sixteen characters of the tag are signed |
| Signatures.AnchorIsSigned | crates/ulpf-core/src/parser/lru_cache.rs:144-153 | logs that show one vendor's anchor first have one signature; those of two vendors are hashed from different texts |
| Signatures.PiecesAtBreak | crates/ulpf-core/src/parser/lru_cache.rs:157 | white space, a comma and a colon end a piece |
| Signatures.NumberNotSigned | crates/ulpf-core/src/parser/lru_cache.rs:155-166 | a number in front of a plain log is not signed |
| Signatures.EmptyIsZero | crates/ulpf-core/src/parser/lru_cache.rs:128-130 | the empty log has signature 0 |
| Signatures.KaggleRefusesFilter | crates/ulpf-core/src/parser/extractors/kaggle.rs:103-107 | the CSV branch refuses the second one, with the message that ends up in the event |
| Signatures.CachedParseDiffers | crates/ulpf-core/src/parser/mod.rs:157-201 | once the first is cached the second one's event differs from the plain one; so formats of one signature are not interchangeable |
| Pipeline.AccountedStep | crates/ulpf-ai/src/pipeline.rs:117-164 | every atomic step of every call keeps the accounting |
| Pipeline.Accounting | crates/ulpf-ai/src/pipeline.rs:117-164 | under every interleaving events are hits plus tier-2 hits plus dispatches plus calls in flight; with none in flight dispatches are the clusters |
| Pipeline.EachClusterQueuedOnce | crates/ulpf-ai/src/pipeline.rs:154-160 | no cluster id is offered or accepted twice; what was accepted is what the worker took and then the queue, within its capacity |
| PipelineQueue.DeliveryExact | crates/ulpf-ai/src/pipeline.rs:154-159 | under every interleaving a cluster id is sent if and only if the step that offers it is accepted while the queue has room, or hands over directly |
| PipelineQueue.SentIsDelivered | crates/ulpf-ai/src/pipeline.rs:154-159 | what was sent is what was offered, in order, less the offers not delivered |
| PipelineQueue.DroppedOnlyWhenFull | crates/ulpf-ai/src/pipeline.rs:154-159 | while the receiver is there an id is dropped exactly at a full queue |
| PipelineQueue.WorkerTakesInOrder | crates/ulpf-ai/src/pipeline.rs:64-78 | the worker has taken the first ids delivered, one for each receive at a non-empty queue or direct hand-over; the queue holds the others |
| Pipeline.MinerIsSequential | crates/ulpf-ai/src/pipeline.rs:132-135 | under every interleaving the miner's state is that of a sequential run with exactly one log for each counted miss that has been through the lock |
| Pipeline.CachedFormatsJustified | crates/ulpf-ai/src/pipeline.rs:138-146 | under every interleaving a cached format is known and classifies a log begun earlier, of that signature, that the miner can meet again |
| Pipeline.ProcessRefinesLossless | crates/ulpf-ai/src/pipeline.rs:117-173 | when a signature tells the format, every call of every interleaving returns what plain lossless parsing returns for its readings |
| Lossless.CallsAreBegun | crates/ulpf-ai/src/pipeline.rs:117-118 | under every interleaving call k is about the k-th log begun, and every call is counted |
| Lossless.EveryCallCarriesItsLog | crates/ulpf-ai/src/pipeline.rs:117-173 | under every interleaving and whatever was cached: the event of a call that has returned carries its log, digest, and an id and time read for it, and is the extraction with the format it was processed with, else with the log's own, else the fallback with the reason |
| PipelineExact.ProcessExact | crates/ulpf-ai/src/pipeline.rs:117-173 | every call of every interleaving returns a plain event if and only if a log may be processed with any known format of its signature that can come to be cached |
| Text.SplitOfJoined | crates/ulpf-core/src/parser/extractors/kaggle.rs:104 | splitting undoes joining when the separator is in no piece |
| Text.WordsAcross | crates/ulpf-core/src/parser/extractors/kaggle.rs:61 | words do not reach across a space |
| Text.ColumnsOfTrim | crates/ulpf-generator/src/lib.rs:83 | trimming the row first changes no trimmed column |
| TextLaws.WordsExact | crates/ulpf-core/src/parser/extractors/kaggle.rs:61 | the words are the text without its white space, none empty and none with white space in it |
| TextLaws.TrimExact | crates/ulpf-core/src/parser/extractors/kaggle.rs:16 | trimming takes all white space off both ends and nothing else |
| TextLaws.TrimMatchesExact | crates/ulpf-core/src/parser/extractors/kaggle.rs:64 | trimming quotes takes all of them off both ends and nothing else |
| TextLaws.SplitOnExact | crates/ulpf-core/src/parser/extractors/kaggle.rs:104 | splitting loses nothing, and no piece holds the separator |
| TextLaws.WhiteSpaceListed | crates/ulpf-core/src/parser/extractors/kaggle.rs:61 | white space is the 25 characters with the Unicode property White_Space |
| Kaggle.ParseSyslog | crates/ulpf-core/src/parser/extractors/kaggle.rs:44-101 | the loop builds the event from the last value of each key, other pairs unmapped |
| Kaggle.ParseOutcome | crates/ulpf-core/src/parser/extractors/kaggle.rs:15-42 | parsing fails exactly for a line that is no header, has no marker and has fewer than five columns of the raw row; every event carries the raw line and the time, a header's says nothing else, and a CSV row's first two columns are its ports |
| Kaggle.PrintedRowRead | crates/ulpf-core/src/parser/extractors/kaggle.rs:103-223 | a printed row of twelve values comes back with ports, traffic directions, unmapped notes, protocol, blocking and time in their places |
| Kaggle.AddressInjective | crates/ulpf-core/src/parser/extractors/kaggle.rs:161-165 | different ports get different synthetic addresses |
| KaggleEvents.VerdictOfAction | crates/ulpf-core/src/parser/extractors/kaggle.rs:177-188 | for every action, in any case of its letters: Allowed, Blocked, Dropped and Unknown, and the three activities, each if and only if the action is one of its words |
| KaggleEvents.PrintedRowVerdict | crates/ulpf-core/src/parser/extractors/kaggle.rs:103-223 | so for the event of every printed row |
| KaggleEvents.EventEndpoints | crates/ulpf-core/src/parser/extractors/kaggle.rs:158-200 | ports, the dotted addresses made of them, and UDP exactly for port 53 |
| KaggleEvents.EventDetails | crates/ulpf-core/src/parser/extractors/kaggle.rs:202-223 | traffic exactly when one of its four counts is there, product, raw text and time |
| KaggleEvents.ShortRowRead | crates/ulpf-core/src/parser/extractors/kaggle.rs:109-120 | a row cut short gives the values it still has, each in its place |
| KaggleEvents.HeaderIsEmptyEvent | crates/ulpf-core/src/parser/extractors/kaggle.rs:18-33 | anything that begins with the header's first name, in either spelling, is an event without endpoints |
| KaggleEvents.RowTakenExact | crates/ulpf-generator/src/lib.rs:82-108 | the generator takes a row if and only if it has ten columns and its first one is not the header's, in any case; the caller's timestamp comes before the clock's |
| KaggleEvents.LineSpelled | crates/ulpf-generator/src/lib.rs:110-113 | the line of a row of twelve columns, spelled out |
| KagglePairs.LastPairWins | crates/ulpf-core/src/parser/extractors/kaggle.rs:61-84 | every field is the parse of the last pair of its key, and every other name keeps its last value |
| KaggleGenerator.LinePairs | crates/ulpf-generator/src/lib.rs:105-113 | the pairs of a generated line are those of the timestamp and then, value by value, the written one and those behind its first word, for every row |
| KaggleGenerator.SyslogLineFields | crates/ulpf-generator/src/lib.rs:82-114 | for every row and timestamp: a field is read as the last pair of its key hidden in its own column or one written later, else as its column's first word less quotes at its ends; stray names go to the unmapped pairs |
| KaggleTranslation.LineIsSyslog | crates/ulpf-core/src/parser/extractors/kaggle.rs:15-42 | a generated line is taken for syslog, never for a header |
| KaggleTranslation.SameMeaningExact | crates/ulpf-core/src/parser/extractors/kaggle.rs:142-223 | two events mean the same if and only if ports, translated ports, duration, traffic, verdict and unmapped pairs agree: the event hides none of them |
| KaggleTranslation.MeaningKeptExact | crates/ulpf-generator/src/lib.rs:82-114 | for every row the generator takes and every timestamp, the translated line and the row parse to the same event but for the raw text if and only if the row is no header and the fields heard agree with those of the row itself, syslog rows included |
| KaggleTranslation.HiddenPairsExact | crates/ulpf-generator/src/lib.rs:82-114 | for CSV rows: if and only if no pair hidden in a column or brought by the timestamp has a name of its own, and what is heard for each field parses like its column |
| KaggleTranslation.WrittenAgrees | crates/ulpf-generator/src/lib.rs:90-103 | what is written and read back agrees with the row if and only if it has twelve columns and none of them hides a value |
| KaggleTranslation.TranslationExact | crates/ulpf-generator/src/lib.rs:82-114 | for CSV rows with no pair behind a column's first word: if and only if the timestamp brings no name of its own, the row has twelve columns and none hides a value behind quotes or further words |
| KaggleTranslation.TranslationKeepsMeaning | crates/ulpf-generator/src/lib.rs:82-114 | for rows of one word a column, without quotes at the ends: if and only if the row has twelve columns |
| KaggleTranslation.PairInColumnBelieved | crates/ulpf-generator/src/lib.rs:110-113 | a pair behind the first word of a column is believed: it sets the source port |
| CsvScanner.SplitCsv | crates/ulpf-core/src/parser/extractors/mod.rs:52-73 | the loop returns the cleaned fields, one more than there are commas outside quotes |
| CsvScanner.RawFieldsPartition | crates/ulpf-core/src/parser/extractors/mod.rs:52-73 | the uncleaned fields joined by commas are the input, and number one more than the commas outside quotes |
| CsvScanner.CsvRoundTrip | crates/ulpf-core/src/parser/extractors/mod.rs:52-73 | splitting undoes quoting and joining for every non-empty list of trimmed fields without quotes, commas inside allowed |
| CsvScanner.CleanTrimsInside | crates/ulpf-core/src/parser/extractors/mod.rs:62 | quotes at the ends of a field go first, then the white space inside them |
| CsvScanner.SpaceKeepsQuote | crates/ulpf-core/src/parser/extractors/mod.rs:62 | white space in front of the quotes keeps the first quote |
| KvTokenizer.ScanForQuote | crates/ulpf-core/src/parser/extractors/fortigate.rs:42-53 | the loop finds the first quote no backslash escapes, or none |
| KvTokenizer.Tokenizer.Next | crates/ulpf-core/src/parser/extractors/fortigate.rs:23-74 | the item and the text left, or the panic; each item shortens the text; letters outside ASCII are whatever the alphabet says |
| KvTokenizer.NextShrinks | crates/ulpf-core/src/parser/extractors/fortigate.rs:23-74 | every item takes something off, at the end no pair is left, and only a text with a pair can panic |
| KvTokenizer.Tokenize | crates/ulpf-core/src/parser/extractors/fortigate.rs:109 | iterating to the end yields all pairs of the trimmed text, unless an item panics |
| KvTokenizer.NoPanic | crates/ulpf-core/src/parser/extractors/fortigate.rs:29-37 | a text whose white space is all of one byte is read to its end |
| KvTokenizer.ValueSurvives | crates/ulpf-core/src/parser/extractors/fortigate.rs:39-64 | a value printed between quotes is returned verbatim, whatever follows, exactly when its quotes are escaped and its last escape is closed |
| KvTokenizer.UnquotedValue | crates/ulpf-core/src/parser/extractors/fortigate.rs:64-73 | a value without quotes ends at the first white space, which stays in the text left |
| KvTokenizer.KeyAfterSeparator | crates/ulpf-core/src/parser/extractors/fortigate.rs:29-37 | the key is the word right before the equals sign, whatever comes before the last space or bar, exactly when that one takes one byte; else the slice is off a character boundary and panics |
| KvTokenizer.KeyAfterJunk | crates/ulpf-core/src/parser/extractors/fortigate.rs:37 | marks in front of a key that are no word characters do not belong to it |
| KvTokenizer.OpenValue | crates/ulpf-core/src/parser/extractors/fortigate.rs:58-63 | a value whose quotes are never closed is the rest of the text |
| KvTokenizer.KvRoundTrip | crates/ulpf-core/src/parser/extractors/fortigate.rs:15-75 | tokenizing, its first trim included, undoes printing for every list of word keys and escaped values |

## Left out

- SHA-256, hexadecimal decoding, UUIDs and clocks: an arbitrary hash function, and inputs.
- Parquet, Arrow, compression and JSON: a written batch is read back as the same columns, cut anywhere; a ledger line is read back as its entry. A ledger file that does not parse is not modelled.
- Several writers on one ledger, and lines appended in part: one writer, and a line is appended whole or not at all.
- The alerts, rates and latencies of the miner, its recent timestamps, and its cluster limit, which the code never reads.
- Masking, tokenising, classification, the hash in a signature and the vendor extractors other than the firewall CSV: arbitrary functions. An extractor's success may not depend on the clock.
- Similarity is a real number and not a 64-bit float; all candidates compared have one length, so the order is that of the match counts.
- A miner depth below 2, where the source's subtraction underflows.
- Drain.InsertToTree: a recursive function on an owned tree; the source walks down by mutable reference. The tree is owned and unaliased there, so nothing else could observe the difference.
- The tier-3 worker beyond receiving from the queue, the dynamic parser registry and the onboarder.
- The atomic counters are modelled as exact and unbounded; wrap-around, poisoned locks, reset of statistics and the hit ratio are not.
- The preview and summary texts of tamper reports.
- KaggleTranslation.TranslationExact: rows with a pair behind the first word of a column and rows that hold the syslog marker are the business of `HiddenPairsExact` and `MeaningKeptExact`.
- KaggleTranslation.TranslationKeepsMeaning: rows with white space inside a column or quotes at its ends are the business of `TranslationExact`.
- MerkleSoundness.ConsistencySound: calls whose named size is not the list's length are the business of `ConsistencySoundAnySizes`.
- MerkleSoundness.ConsistencyBindsPrefix: the same, in `EarlierIsPrefix`.
- Characters of a log are single bytes where signatures are made. Where the source's window of 96 bytes would end inside a character of several bytes its slice panics, which is not modelled; nor is the classifier, whose answers for the two logs are hypotheses of `CachedParseDiffers`.
- The vendor field mappings, sockets, generator load loops, command line and dashboards.
