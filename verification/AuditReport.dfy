/** What a report holds, in terms of the stored rows and the ledger entry alone: every defect, once, in order. */
module AuditReport {
  import opened Auditor
  import opened Digests
  import opened MerkleSpec
  import opened Storage

  predicate WrongCount(rows: seq<StoredLogRecord>, entry: LedgerEntry) {
    |rows| != entry.leafCount
  }

  /** The stored index is not the row's place, cut to 32 bits. */
  predicate WrongIndex(i: nat, row: StoredLogRecord) {
    row.leafIndex != i % 0x1_0000_0000
  }

  /** The stored digest is not that of the raw log. */
  predicate WrongDigest(H: HashFn, row: StoredLogRecord) {
    row.rawHash != Hex(H(row.rawLog))
  }

  predicate NoRowWrong(H: HashFn, rows: seq<StoredLogRecord>) {
    forall i :: 0 <= i < |rows| ==> !WrongIndex(i, rows[i]) && !WrongDigest(H, rows[i])
  }

  /** The root differs and nothing else is wrong. */
  predicate OnlyRootWrong(H: HashFn, rows: seq<StoredLogRecord>, entry: LedgerEntry) {
    && !WrongCount(rows, entry) && NoRowWrong(H, rows)
    && Hex(Mth(H, RawLogs(rows))) != entry.merkleRoot
  }

  function CountReport(rows: seq<StoredLogRecord>, entry: LedgerEntry): TamperedRecord {
    TamperedRecord(|rows| % 0x1_0000_0000, "", "", "", CountDiscrepancy(entry.leafCount, |rows|))
  }

  function IndexReport(i: nat, row: StoredLogRecord): TamperedRecord {
    TamperedRecord(row.leafIndex, row.eventId, row.rawHash, "", IndexMismatch(i % 0x1_0000_0000, row.leafIndex))
  }

  function DigestReport(H: HashFn, row: StoredLogRecord): TamperedRecord {
    TamperedRecord(row.leafIndex, row.eventId, row.rawHash, Hex(H(row.rawLog)),
                   DigestMismatch(row.rawHash, Hex(H(row.rawLog))))
  }

  function RootReport(H: HashFn, rows: seq<StoredLogRecord>, entry: LedgerEntry): TamperedRecord {
    TamperedRecord(0, "", entry.merkleRoot, Hex(Mth(H, RawLogs(rows))),
                   MerkleRootMismatch(entry.merkleRoot, Hex(Mth(H, RawLogs(rows)))))
  }

  // ----- The rows -----

  function RowDefects(H: HashFn, i: nat, row: StoredLogRecord): nat {
    (if WrongIndex(i, row) then 1 else 0) + (if WrongDigest(H, row) then 1 else 0)
  }

  /** How many things are wrong with the rows, one by one. */
  function Defects(H: HashFn, rows: seq<StoredLogRecord>): nat {
    if rows == [] then 0
    else
      var n := |rows| - 1;
      Defects(H, rows[..n]) + RowDefects(H, n, rows[n])
  }

  lemma RowReported(H: HashFn, i: nat, row: StoredLogRecord)
    ensures var found := RowFindings(H, i, row);
      && |found| == RowDefects(H, i, row)
      && (WrongIndex(i, row) ==> found[0] == IndexReport(i, row))
      && (WrongDigest(H, row) ==> found[|found| - 1] == DigestReport(H, row))
  {
  }

  lemma {:induction false} RowsReported(H: HashFn, rows: seq<StoredLogRecord>)
    ensures |RowsFindings(H, rows)| == Defects(H, rows)
  {
    if rows != [] {
      var n := |rows| - 1;
      RowsReported(H, rows[..n]);
      RowReported(H, n, rows[n]);
    }
  }

  lemma {:induction false} FindingsOfPrefix(H: HashFn, rows: seq<StoredLogRecord>, i: nat)
    requires i <= |rows|
    ensures RowsFindings(H, rows[..i]) <= RowsFindings(H, rows)
    decreases |rows|
  {
    if i == |rows| {
      assert rows[..i] == rows;
    } else {
      var n := |rows| - 1;
      FindingsOfPrefix(H, rows[..n], i);
      assert rows[..n][..i] == rows[..i];
    }
  }

  /** A row's findings stand behind those of the rows before it. */
  lemma {:induction false} RowPlace(H: HashFn, rows: seq<StoredLogRecord>, i: nat)
    requires i < |rows|
    ensures var at, k := Defects(H, rows[..i]), RowDefects(H, i, rows[i]);
      && at + k <= |RowsFindings(H, rows)|
      && RowsFindings(H, rows)[at..at + k] == RowFindings(H, i, rows[i])
  {
    var before := RowsFindings(H, rows[..i]);
    RowsFindingsNext(H, rows, i);
    RowsReported(H, rows[..i]);
    RowReported(H, i, rows[i]);
    FindingsOfPrefix(H, rows, i + 1);
    var upTo := before + RowFindings(H, i, rows[i]);
    assert RowsFindings(H, rows)[..|upTo|] == upTo;
    assert RowsFindings(H, rows)[|before|..|upTo|] == upTo[|before|..];
  }

  // ----- The whole report -----

  lemma {:induction false} NoDefects(H: HashFn, rows: seq<StoredLogRecord>)
    ensures Defects(H, rows) == 0 <==> NoRowWrong(H, rows)
  {
    if rows != [] {
      var n := |rows| - 1;
      NoDefects(H, rows[..n]);
      assert forall i :: 0 <= i < n ==> rows[..n][i] == rows[i];
    }
  }

  /** The findings before the rows' own: one when the count differs. */
  function Ahead(rows: seq<StoredLogRecord>, entry: LedgerEntry): nat {
    if WrongCount(rows, entry) then 1 else 0
  }

  lemma ReportParts(H: HashFn, rows: seq<StoredLogRecord>, entry: LedgerEntry)
    ensures Findings(H, rows, entry)
         == (if WrongCount(rows, entry) then [CountReport(rows, entry)] else [])
            + RowsFindings(H, rows)
            + (if OnlyRootWrong(H, rows, entry) then [RootReport(H, rows, entry)] else [])
  {
    RowsReported(H, rows);
    NoDefects(H, rows);
    assert [] + RowsFindings(H, rows) == RowsFindings(H, rows);
  }

  /** There are as many findings as defects. */
  lemma {:induction false} ReportSize(H: HashFn, rows: seq<StoredLogRecord>, entry: LedgerEntry)
    ensures |Findings(H, rows, entry)|
         == Ahead(rows, entry) + Defects(H, rows) + if OnlyRootWrong(H, rows, entry) then 1 else 0
  {
    ReportParts(H, rows, entry);
    RowsReported(H, rows);
  }

  /** A differing count comes first; a differing root is blamed alone. */
  lemma {:induction false} BlockReported(H: HashFn, rows: seq<StoredLogRecord>, entry: LedgerEntry)
    ensures WrongCount(rows, entry) ==>
      Findings(H, rows, entry) != [] && Findings(H, rows, entry)[0] == CountReport(rows, entry)
    ensures OnlyRootWrong(H, rows, entry) ==> Findings(H, rows, entry) == [RootReport(H, rows, entry)]
  {
    ReportParts(H, rows, entry);
    RowsReported(H, rows);
    NoDefects(H, rows);
  }

  lemma StretchInMiddle<T>(before: seq<T>, middle: seq<T>, after: seq<T>, at: nat, k: nat)
    requires at + k <= |middle|
    ensures var all, from := before + middle + after, |before| + at;
      from + k <= |all| && all[from..from + k] == middle[at..at + k]
  {
  }

  /** Every wrong index and every wrong digest is reported at its place, whatever else is wrong. */
  lemma {:induction false} RowDefectsReported(H: HashFn, rows: seq<StoredLogRecord>, entry: LedgerEntry, i: nat)
    requires i < |rows|
    ensures var found, at := Findings(H, rows, entry), Ahead(rows, entry) + Defects(H, rows[..i]);
      && at + RowDefects(H, i, rows[i]) <= |found|
      && (WrongIndex(i, rows[i]) ==> found[at] == IndexReport(i, rows[i]))
      && (WrongDigest(H, rows[i]) ==> found[at + RowDefects(H, i, rows[i]) - 1] == DigestReport(H, rows[i]))
  {
    ReportParts(H, rows, entry);
    RowPlace(H, rows, i);
    RowReported(H, i, rows[i]);
    var at, k := Defects(H, rows[..i]), RowDefects(H, i, rows[i]);
    StretchInMiddle(if WrongCount(rows, entry) then [CountReport(rows, entry)] else [], RowsFindings(H, rows),
                    if OnlyRootWrong(H, rows, entry) then [RootReport(H, rows, entry)] else [], at, k);
    var found, from := Findings(H, rows, entry), Ahead(rows, entry) + at;
    if k > 0 { assert found[from] == found[from..from + k][0] && found[from + k - 1] == found[from..from + k][k - 1]; }
  }

  /** What a finding can be about. */
  predicate Due(H: HashFn, rows: seq<StoredLogRecord>, entry: LedgerEntry, f: TamperedRecord) {
    || (WrongCount(rows, entry) && f == CountReport(rows, entry))
    || (exists i :: 0 <= i < |rows| && WrongIndex(i, rows[i]) && f == IndexReport(i, rows[i]))
    || (exists i :: 0 <= i < |rows| && WrongDigest(H, rows[i]) && f == DigestReport(H, rows[i]))
    || (OnlyRootWrong(H, rows, entry) && f == RootReport(H, rows, entry))
  }

  lemma RowFindingIsDue(H: HashFn, i: nat, row: StoredLogRecord, f: TamperedRecord)
    requires f in RowFindings(H, i, row)
    ensures (WrongIndex(i, row) && f == IndexReport(i, row)) || (WrongDigest(H, row) && f == DigestReport(H, row))
  {
  }

  /** The report names exactly the defects. */
  lemma {:induction false} ReportExact(H: HashFn, rows: seq<StoredLogRecord>, entry: LedgerEntry, f: TamperedRecord)
    ensures f in Findings(H, rows, entry) <==> Due(H, rows, entry, f)
  {
    ReportParts(H, rows, entry);
    if f in RowsFindings(H, rows) {
      var i := ReportedFindingHasRow(H, rows, f);
      RowFindingIsDue(H, i, rows[i], f);
    }
    if Due(H, rows, entry, f) && f !in Findings(H, rows, entry) {
      if i :| 0 <= i < |rows| && WrongIndex(i, rows[i]) && f == IndexReport(i, rows[i]) {
        RowDefectsReported(H, rows, entry, i);
      } else if i :| 0 <= i < |rows| && WrongDigest(H, rows[i]) && f == DigestReport(H, rows[i]) {
        RowDefectsReported(H, rows, entry, i);
      }
    }
  }
}
