/** Rows to columns and back, and the loop that concatenates the batches of one file. */
module Storage {
  import opened Decimal
  import opened Digests
  import opened Options

  datatype StoredLogRecord = StoredLogRecord(
    eventId: string, blockId: nat, leafIndex: nat, timestamp: int,
    vendor: string, rawLog: Bytes, rawHash: string, ocsfJson: string)

  /** Eight columns of one length. */
  datatype RecordBatch = RecordBatch(
    eventIds: seq<string>, blockIds: seq<nat>, leafIndices: seq<nat>, timestamps: seq<int>,
    vendors: seq<string>, rawLogs: seq<Bytes>, rawHashes: seq<string>, ocsfJsons: seq<string>)
  {
    predicate WellFormed() {
      |eventIds| == |blockIds| == |leafIndices| == |timestamps|
      == |vendors| == |rawLogs| == |rawHashes| == |ocsfJsons|
    }

    function Row(i: nat): StoredLogRecord
      requires WellFormed() && i < |eventIds|
    {
      StoredLogRecord(eventIds[i], blockIds[i], leafIndices[i], timestamps[i],
                      vendors[i], rawLogs[i], rawHashes[i], ocsfJsons[i])
    }
  }

  const EMPTY_BATCH := RecordBatch([], [], [], [], [], [], [], [])

  /** The rows of a batch, in order. */
  function RowsOf(b: RecordBatch): (rows: seq<StoredLogRecord>)
    requires b.WellFormed()
    ensures |rows| == |b.eventIds|
  {
    seq(|b.eventIds|, i requires 0 <= i < |b.eventIds| => b.Row(i))
  }

  /** The columns of a list of rows. */
  function BatchOf(rs: seq<StoredLogRecord>): (b: RecordBatch)
    ensures b.WellFormed()
  {
    RecordBatch(
      seq(|rs|, i requires 0 <= i < |rs| => rs[i].eventId),
      seq(|rs|, i requires 0 <= i < |rs| => rs[i].blockId),
      seq(|rs|, i requires 0 <= i < |rs| => rs[i].leafIndex),
      seq(|rs|, i requires 0 <= i < |rs| => rs[i].timestamp),
      seq(|rs|, i requires 0 <= i < |rs| => rs[i].vendor),
      seq(|rs|, i requires 0 <= i < |rs| => rs[i].rawLog),
      seq(|rs|, i requires 0 <= i < |rs| => rs[i].rawHash),
      seq(|rs|, i requires 0 <= i < |rs| => rs[i].ocsfJson))
  }

  /** Nothing is lost on the way into columns: the rows come back. */
  lemma RowsOfBatchOf(rs: seq<StoredLogRecord>)
    ensures RowsOf(BatchOf(rs)) == rs
  {
    forall i | 0 <= i < |rs| ensures RowsOf(BatchOf(rs))[i] == rs[i] {
      assert BatchOf(rs).Row(i) == rs[i];
    }
  }

  method RecordsToBatch(records: seq<StoredLogRecord>) returns (b: RecordBatch)
    ensures b == BatchOf(records)
    ensures forall i :: 0 <= i < |records| ==> i < |b.eventIds| && b.Row(i) == records[i]
    ensures forall i :: 0 <= i < |records| ==>
      && b.eventIds[i] == records[i].eventId && b.blockIds[i] == records[i].blockId
      && b.leafIndices[i] == records[i].leafIndex && b.timestamps[i] == records[i].timestamp
      && b.vendors[i] == records[i].vendor && b.rawLogs[i] == records[i].rawLog
      && b.rawHashes[i] == records[i].rawHash && b.ocsfJsons[i] == records[i].ocsfJson
  {
    var eventIds, blockIds, leafIndices, timestamps := [], [], [], [];
    var vendors, rawLogs, rawHashes, ocsfJsons := [], [], [], [];
    for i := 0 to |records|
      invariant |eventIds| == |blockIds| == |leafIndices| == |timestamps| == i
      invariant |vendors| == |rawLogs| == |rawHashes| == |ocsfJsons| == i
      invariant forall j :: 0 <= j < i ==>
        StoredLogRecord(eventIds[j], blockIds[j], leafIndices[j], timestamps[j],
                        vendors[j], rawLogs[j], rawHashes[j], ocsfJsons[j]) == records[j]
    {
      var r := records[i];
      eventIds := eventIds + [r.eventId];
      blockIds := blockIds + [r.blockId];
      leafIndices := leafIndices + [r.leafIndex];
      timestamps := timestamps + [r.timestamp];
      vendors := vendors + [r.vendor];
      rawLogs := rawLogs + [r.rawLog];
      rawHashes := rawHashes + [r.rawHash];
      ocsfJsons := ocsfJsons + [r.ocsfJson];
    }
    b := RecordBatch(eventIds, blockIds, leafIndices, timestamps, vendors, rawLogs, rawHashes, ocsfJsons);
  }

  method BatchToRecords(b: RecordBatch) returns (records: seq<StoredLogRecord>)
    requires b.WellFormed()
    ensures records == RowsOf(b)
  {
    records := [];
    for i := 0 to |b.eventIds|
      invariant records == RowsOf(b)[..i]
    {
      records := records + [StoredLogRecord(b.eventIds[i], b.blockIds[i], b.leafIndices[i], b.timestamps[i],
                                            b.vendors[i], b.rawLogs[i], b.rawHashes[i], b.ocsfJsons[i])];
    }
  }

  predicate AllWellFormed(batches: seq<RecordBatch>) {
    forall i :: 0 <= i < |batches| ==> batches[i].WellFormed()
  }

  /** The rows of a file read as several consecutive batches. */
  function FileRows(batches: seq<RecordBatch>): seq<StoredLogRecord>
    requires AllWellFormed(batches)
  {
    if batches == [] then [] else FileRows(batches[..|batches| - 1]) + RowsOf(batches[|batches| - 1])
  }

  method ReadParquetFile(batches: seq<RecordBatch>) returns (records: seq<StoredLogRecord>)
    requires AllWellFormed(batches)
    ensures records == FileRows(batches)
  {
    records := [];
    for i := 0 to |batches|
      invariant records == FileRows(batches[..i])
    {
      var rows := BatchToRecords(batches[i]);
      records := records + rows;
      assert batches[..i + 1][..i] == batches[..i];
    }
    assert batches[..|batches|] == batches;
  }

  /** Two batches one after the other, column by column. */
  function Appended(a: RecordBatch, b: RecordBatch): RecordBatch {
    RecordBatch(a.eventIds + b.eventIds, a.blockIds + b.blockIds, a.leafIndices + b.leafIndices,
                a.timestamps + b.timestamps, a.vendors + b.vendors, a.rawLogs + b.rawLogs,
                a.rawHashes + b.rawHashes, a.ocsfJsons + b.ocsfJsons)
  }

  function Concatenated(batches: seq<RecordBatch>): RecordBatch {
    if batches == [] then EMPTY_BATCH
    else Appended(Concatenated(batches[..|batches| - 1]), batches[|batches| - 1])
  }

  /** A way the reader may cut what was written: well-formed pieces that make up the written columns. */
  predicate SplitOf(batches: seq<RecordBatch>, written: RecordBatch) {
    AllWellFormed(batches) && Concatenated(batches) == written
  }

  lemma RowsOfAppended(a: RecordBatch, b: RecordBatch)
    requires a.WellFormed() && b.WellFormed()
    ensures Appended(a, b).WellFormed() && RowsOf(Appended(a, b)) == RowsOf(a) + RowsOf(b)
  {
    var c := Appended(a, b);
    forall i | 0 <= i < |c.eventIds| ensures c.Row(i) == (RowsOf(a) + RowsOf(b))[i] {
      if i < |a.eventIds| {
        assert c.Row(i) == a.Row(i);
      } else {
        assert c.Row(i) == b.Row(i - |a.eventIds|);
      }
    }
  }

  /** However the written columns are cut, the rows read back are the rows written, in order. */
  lemma {:induction false} ReadBackRows(batches: seq<RecordBatch>, written: RecordBatch)
    requires SplitOf(batches, written)
    ensures written.WellFormed() && FileRows(batches) == RowsOf(written)
    decreases |batches|
  {
    if batches == [] {
    } else {
      var first, last := batches[..|batches| - 1], batches[|batches| - 1];
      ReadBackRows(first, Concatenated(first));
      RowsOfAppended(Concatenated(first), last);
    }
  }

  // ----- File names -----

  const STEM_PREFIX := "block_"
  const FILE_SUFFIX := ".parquet"
  const U64_LIMIT: nat := 0x1_0000_0000_0000_0000

  function BlockFileStem(blockId: nat): string {
    STEM_PREFIX + ZeroPadded(ToDecimal(blockId), 5)
  }

  function BlockFileName(blockId: nat): string {
    BlockFileStem(blockId) + FILE_SUFFIX
  }

  /** The block id the auditor reads off a file stem when the file has no rows. */
  function BlockIdOfStem(stem: string): nat {
    if STEM_PREFIX <= stem then
      match ParseUnsigned(stem[|STEM_PREFIX|..], U64_LIMIT)
      case Some(id) => id
      case None => 0
    else 0
  }

  lemma {:induction false} PaddedShape(s: string, width: nat)
    requires s != "" && s[0] != '+'
    ensures ZeroPadded(s, width) != "" && ZeroPadded(s, width)[0] != '+'
    decreases if |s| < width then width - |s| else 0
  {
    if |s| >= width {
    } else {
      PaddedShape("0" + s, width);
    }
  }

  /** The stem names its block. */
  lemma BlockIdOfBlockStem(blockId: nat)
    requires blockId < U64_LIMIT
    ensures BlockIdOfStem(BlockFileStem(blockId)) == blockId
  {
    var padded := ZeroPadded(ToDecimal(blockId), 5);
    assert BlockFileStem(blockId)[|STEM_PREFIX|..] == padded;
    PaddedShape(ToDecimal(blockId), 5);
    PaddingKeepsValue(ToDecimal(blockId), 5);
    DigitsValueOfDecimal(blockId);
  }

  /** No two blocks share a file. */
  lemma BlockFileNameInjective(a: nat, b: nat)
    requires BlockFileName(a) == BlockFileName(b)
    ensures a == b
  {
    var x, y := ZeroPadded(ToDecimal(a), 5), ZeroPadded(ToDecimal(b), 5);
    assert |x| == |y|;
    assert x == BlockFileName(a)[|STEM_PREFIX|..|STEM_PREFIX| + |x|];
    assert y == BlockFileName(b)[|STEM_PREFIX|..|STEM_PREFIX| + |y|];
    PaddingKeepsValue(ToDecimal(a), 5);
    PaddingKeepsValue(ToDecimal(b), 5);
    DigitsValueOfDecimal(a);
    DigitsValueOfDecimal(b);
  }

  /** A block's file is `block_`, its id in five digits or as many as it takes, and `.parquet`. */
  lemma {:induction false} BlockFileSpelled(blockId: nat)
    ensures var n := ToDecimal(blockId);
      exists zeros: string :: (forall i :: 0 <= i < |zeros| ==> zeros[i] == '0')
        && |zeros| == (if |n| < 5 then 5 - |n| else 0)
        && BlockFileName(blockId) == "block_" + (zeros + n) + ".parquet"
  {
    var n := ToDecimal(blockId);
    var padded := ZeroPadded(n, 5);
    PaddedLength(n, 5);
    var zeros := padded[..|padded| - |n|];
    assert padded == zeros + n;
  }

  /** Any other stem names block 0: one without the prefix, and one whose rest is no number of 64 bits. */
  lemma {:induction false} OtherStems(stem: string)
    ensures !("block_" <= stem) ==> BlockIdOfStem(stem) == 0
    ensures "block_" <= stem && ParseUnsigned(stem[6..], 0x1_0000_0000_0000_0000).None? ==> BlockIdOfStem(stem) == 0
  {
  }
}
