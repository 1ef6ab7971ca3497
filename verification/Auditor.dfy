/** The forensic auditor: re-derive every digest and the root from stored rows, and compare. */
module Auditor {
  import opened Digests
  import opened MerkleSoundness
  import opened MerkleSpec
  import opened MerkleTree
  import opened Options
  import opened Storage

  datatype LedgerEntry = LedgerEntry(
    blockId: nat, timestamp: int, leafCount: nat, merkleRoot: string, parquetFile: string)

  datatype TamperReason =
    | DigestMismatch(storedHash: string, calculatedHash: string)
    | IndexMismatch(expectedIndex: nat, foundIndex: nat)
    | CountDiscrepancy(expectedCount: nat, actualCount: nat)
    | MerkleRootMismatch(ledgerRoot: string, computedRoot: string)

  datatype TamperedRecord = TamperedRecord(
    leafIndex: nat, eventId: string, storedRawHash: string, calculatedRawHash: string, reason: TamperReason)

  datatype TamperReport = TamperReport(
    isValid: bool, blockId: nat, ledgerMerkleRoot: string, computedMerkleRoot: string,
    expectedRecords: nat, actualRecords: nat, tamperedRecords: seq<TamperedRecord>)

  const U32_LIMIT: nat := 0x1_0000_0000

  /** `i as u32`. */
  function AsU32(i: nat): nat {
    i % U32_LIMIT
  }

  function RawLogs(records: seq<StoredLogRecord>): (logs: seq<Bytes>)
    ensures |logs| == |records|
  {
    seq(|records|, i requires 0 <= i < |records| => records[i].rawLog)
  }

  function RawDigest(H: HashFn, log: Bytes): string {
    Hex(H(log))
  }

  function RootHex(H: HashFn, records: seq<StoredLogRecord>): string {
    Hex(Mth(H, RawLogs(records)))
  }

  predicate RowIntact(H: HashFn, i: nat, r: StoredLogRecord) {
    r.leafIndex == AsU32(i) && r.rawHash == RawDigest(H, r.rawLog)
  }

  /** What the auditor is for: count, indices, stored digests and root all as they should be. */
  predicate Untampered(H: HashFn, records: seq<StoredLogRecord>, entry: LedgerEntry) {
    && |records| == entry.leafCount
    && (forall i :: 0 <= i < |records| ==> RowIntact(H, i, records[i]))
    && RootHex(H, records) == entry.merkleRoot
  }

  function CountFinding(expected: nat, actual: nat): TamperedRecord {
    TamperedRecord(AsU32(actual), "", "", "", CountDiscrepancy(expected, actual))
  }

  function IndexFinding(i: nat, r: StoredLogRecord): TamperedRecord {
    TamperedRecord(r.leafIndex, r.eventId, r.rawHash, "", IndexMismatch(AsU32(i), r.leafIndex))
  }

  function DigestFinding(H: HashFn, r: StoredLogRecord): TamperedRecord {
    TamperedRecord(r.leafIndex, r.eventId, r.rawHash, RawDigest(H, r.rawLog),
                   DigestMismatch(r.rawHash, RawDigest(H, r.rawLog)))
  }

  function RootFinding(ledgerRoot: string, computedRoot: string): TamperedRecord {
    TamperedRecord(0, "", ledgerRoot, computedRoot, MerkleRootMismatch(ledgerRoot, computedRoot))
  }

  /** The findings about one row: index first, then digest. */
  function RowFindings(H: HashFn, i: nat, r: StoredLogRecord): seq<TamperedRecord> {
    (if r.leafIndex != AsU32(i) then [IndexFinding(i, r)] else [])
    + (if r.rawHash != RawDigest(H, r.rawLog) then [DigestFinding(H, r)] else [])
  }

  function RowsFindings(H: HashFn, records: seq<StoredLogRecord>): seq<TamperedRecord> {
    if records == [] then []
    else
      var n := |records| - 1;
      RowsFindings(H, records[..n]) + RowFindings(H, n, records[n])
  }

  /** Every finding, in the order reported; the root is blamed only when nothing else is. */
  function Findings(H: HashFn, records: seq<StoredLogRecord>, entry: LedgerEntry): seq<TamperedRecord> {
    var counted := if |records| != entry.leafCount then [CountFinding(entry.leafCount, |records|)] else [];
    var found := counted + RowsFindings(H, records);
    if found == [] && RootHex(H, records) != entry.merkleRoot
    then [RootFinding(entry.merkleRoot, RootHex(H, records))] else found
  }

  method VerifyRow(H: HashFn, i: nat, record: StoredLogRecord, before: seq<TamperedRecord>)
    returns (tampered: seq<TamperedRecord>)
    ensures tampered == before + RowFindings(H, i, record)
  {
    tampered := before;
    if record.leafIndex != AsU32(i) {
      tampered := tampered + [IndexFinding(i, record)];
    }
    var computedDigest := RawDigest(H, record.rawLog);
    if computedDigest != record.rawHash {
      tampered := tampered + [DigestFinding(H, record)];
    }
  }

  lemma RowsFindingsNext(H: HashFn, records: seq<StoredLogRecord>, i: nat)
    requires i < |records|
    ensures RowsFindings(H, records[..i + 1]) == RowsFindings(H, records[..i]) + RowFindings(H, i, records[i])
  {
    assert records[..i + 1][..i] == records[..i];
  }

  method VerifyRows(H: HashFn, records: seq<StoredLogRecord>, before: seq<TamperedRecord>)
    returns (tampered: seq<TamperedRecord>)
    ensures tampered == before + RowsFindings(H, records)
  {
    tampered := before;
    for i := 0 to |records|
      invariant tampered == before + RowsFindings(H, records[..i])
    {
      tampered := VerifyRow(H, i, records[i], tampered);
      RowsFindingsNext(H, records, i);
    }
    assert records[..|records|] == records;
  }

  method RebuildRootHex(H: HashFn, records: seq<StoredLogRecord>) returns (root: string)
    ensures root == RootHex(H, records)
  {
    FromRawLogsRoot(H, RawLogs(records));
    root := Hex(FromRawLogs(H, RawLogs(records)).root);
  }

  lemma RowFindingsEmpty(H: HashFn, i: nat, r: StoredLogRecord)
    ensures RowFindings(H, i, r) == [] <==> RowIntact(H, i, r)
  {
  }

  lemma OneMoreIntact(H: HashFn, records: seq<StoredLogRecord>, n: nat)
    requires |records| == n + 1
    ensures (forall i :: 0 <= i < |records| ==> RowIntact(H, i, records[i]))
       <==> (forall i :: 0 <= i < n ==> RowIntact(H, i, records[..n][i])) && RowIntact(H, n, records[n])
  {
    assert forall i :: 0 <= i < n ==> records[..n][i] == records[i];
  }

  lemma {:induction false} RowsFindingsEmpty(H: HashFn, records: seq<StoredLogRecord>)
    ensures RowsFindings(H, records) == [] <==> forall i :: 0 <= i < |records| ==> RowIntact(H, i, records[i])
    decreases |records|
  {
    if records == [] {
    } else {
      var n := |records| - 1;
      RowsFindingsEmpty(H, records[..n]);
      RowFindingsEmpty(H, n, records[n]);
      OneMoreIntact(H, records, n);
    }
  }

  /** No finding at all is the same as nothing tampered with. */
  lemma FindingsEmpty(H: HashFn, records: seq<StoredLogRecord>, entry: LedgerEntry)
    ensures Findings(H, records, entry) == [] <==> Untampered(H, records, entry)
  {
    RowsFindingsEmpty(H, records);
  }

  method VerifyRecords(H: HashFn, records: seq<StoredLogRecord>, entry: LedgerEntry) returns (report: TamperReport)
    ensures report.tamperedRecords == Findings(H, records, entry)
    ensures report.isValid <==> Untampered(H, records, entry)
    ensures report.isValid <==> report.tamperedRecords == []
    ensures report.blockId == entry.blockId && report.ledgerMerkleRoot == entry.merkleRoot
    ensures report.computedMerkleRoot == RootHex(H, records)
    ensures report.expectedRecords == entry.leafCount && report.actualRecords == |records|
  {
    var tampered := [];
    if |records| != entry.leafCount {
      tampered := tampered + [CountFinding(entry.leafCount, |records|)];
    }
    tampered := VerifyRows(H, records, tampered);
    var computedRoot := RebuildRootHex(H, records);
    var rootMatches := computedRoot == entry.merkleRoot;
    if !rootMatches && tampered == [] {
      tampered := tampered + [RootFinding(entry.merkleRoot, computedRoot)];
    }
    FindingsEmpty(H, records, entry);
    report := TamperReport(rootMatches && tampered == [], entry.blockId, entry.merkleRoot, computedRoot,
                           entry.leafCount, |records|, tampered);
  }

  /** Nothing wrong with a row goes unreported. */
  lemma {:induction false} RowFindingReported(H: HashFn, records: seq<StoredLogRecord>, i: nat, f: TamperedRecord)
    requires i < |records| && f in RowFindings(H, i, records[i])
    ensures f in RowsFindings(H, records)
    decreases |records|
  {
    var n := |records| - 1;
    if i == n {
    } else {
      RowFindingReported(H, records[..n], i, f);
    }
  }

  /** Nothing is reported that is not wrong with some row. */
  lemma {:induction false} ReportedFindingHasRow(H: HashFn, records: seq<StoredLogRecord>, f: TamperedRecord)
    returns (i: nat)
    requires f in RowsFindings(H, records)
    ensures i < |records| && f in RowFindings(H, i, records[i])
    decreases |records|
  {
    var n := |records| - 1;
    if f in RowFindings(H, n, records[n]) {
      i := n;
    } else {
      i := ReportedFindingHasRow(H, records[..n], f);
    }
  }

  /** Rows judged valid against the entry of a block carry that block's logs in order, or a pair collides. */
  lemma ValidRowsAreTheBlock(H: HashFn, records: seq<StoredLogRecord>, entry: LedgerEntry, logs: seq<Bytes>)
    requires entry.merkleRoot == Hex(Mth(H, logs))
    requires Untampered(H, records, entry)
    ensures RawLogs(records) == logs || Collides(H, ListCollision(H, RawLogs(records), logs))
  {
    HexInjective(Mth(H, RawLogs(records)), Mth(H, logs));
    RootBindsLogs(H, RawLogs(records), logs);
  }

  /** The rows agree in the three columns the auditor looks at. */
  predicate SameEvidence(a: seq<StoredLogRecord>, b: seq<StoredLogRecord>) {
    && |a| == |b|
    && forall i :: 0 <= i < |a| ==>
      a[i].leafIndex == b[i].leafIndex && a[i].rawLog == b[i].rawLog && a[i].rawHash == b[i].rawHash
  }

  /** The verdict is about those columns and no others: event ids, times, vendors and event texts may differ. */
  lemma {:induction false} VerdictExact(H: HashFn, rows: seq<StoredLogRecord>, others: seq<StoredLogRecord>,
                                        entry: LedgerEntry)
    requires Untampered(H, rows, entry)
    ensures SameEvidence(rows, others) ==> Untampered(H, others, entry)
    ensures Untampered(H, others, entry) ==>
      SameEvidence(rows, others) || Collides(H, ListCollision(H, RawLogs(rows), RawLogs(others)))
  {
    if SameEvidence(rows, others) {
      assert RawLogs(rows) == RawLogs(others);
    } else if Untampered(H, others, entry) {
      HexInjective(Mth(H, RawLogs(rows)), Mth(H, RawLogs(others)));
      RootBindsLogs(H, RawLogs(rows), RawLogs(others));
      assert forall i :: 0 <= i < |rows| ==> rows[i].rawLog == RawLogs(rows)[i];
      assert forall i :: 0 <= i < |others| ==> others[i].rawLog == RawLogs(others)[i];
    }
  }

  // ----- Finding the entry of a block -----

  function FirstEntry(ledger: seq<LedgerEntry>, blockId: nat): Option<LedgerEntry> {
    if ledger == [] then None
    else if ledger[0].blockId == blockId then Some(ledger[0])
    else FirstEntry(ledger[1..], blockId)
  }

  /** The place of the first entry of a block. */
  predicate FirstAt(ledger: seq<LedgerEntry>, blockId: nat, k: nat) {
    && k < |ledger| && ledger[k].blockId == blockId
    && forall j :: 0 <= j < k ==> ledger[j].blockId != blockId
  }

  /** The entry found is the first one of the block, and none is found only where there is none. */
  lemma {:induction false} FirstEntryExact(ledger: seq<LedgerEntry>, blockId: nat) returns (k: nat)
    ensures match FirstEntry(ledger, blockId)
      case None => forall j :: 0 <= j < |ledger| ==> ledger[j].blockId != blockId
      case Some(entry) => FirstAt(ledger, blockId, k) && ledger[k] == entry
  {
    k := 0;
    if ledger != [] && ledger[0].blockId != blockId {
      var i := FirstEntryExact(ledger[1..], blockId);
      assert forall j :: 1 <= j < |ledger| ==> ledger[j] == ledger[1..][j - 1];
      k := i + 1;
    }
  }

  /** The block the rows claim to be, or the one the file is named after when there are no rows. */
  function TargetBlock(records: seq<StoredLogRecord>, fileStem: string): nat {
    if records != [] then records[0].blockId else BlockIdOfStem(fileStem)
  }

  /** `None` is the missing-entry error. */
  method VerifyBlockWithLedger(H: HashFn, batches: seq<RecordBatch>, fileStem: string, ledger: seq<LedgerEntry>)
    returns (r: Option<TamperReport>)
    requires AllWellFormed(batches)
    ensures var records := FileRows(batches);
      match FirstEntry(ledger, TargetBlock(records, fileStem))
      case None => r == None
      case Some(entry) =>
        && r.Some?
        && r.value.blockId == entry.blockId
        && r.value.tamperedRecords == Findings(H, records, entry)
        && (r.value.isValid <==> Untampered(H, records, entry))
  {
    var records := ReadParquetFile(batches);
    var blockId := TargetBlock(records, fileStem);
    for k := 0 to |ledger|
      invariant FirstEntry(ledger, blockId) == FirstEntry(ledger[k..], blockId)
    {
      if ledger[k].blockId == blockId {
        var report := VerifyRecords(H, records, ledger[k]);
        return Some(report);
      }
    }
    return None;
  }

  /** The rows' own block wins over the name; a file without rows is the block it is named after. */
  lemma TargetExact(records: seq<StoredLogRecord>, blockId: nat)
    requires blockId < 0x1_0000_0000_0000_0000
    ensures TargetBlock(records, BlockFileStem(blockId)) == if |records| > 0 then records[0].blockId else blockId
  {
    BlockIdOfBlockStem(blockId);
  }
}
