/**
 A firewall row two ways: straight from CSV, and through the generator's syslog line. For which rows the
 two ways give one event.
 */
module KaggleTranslation {
  import opened Decimal
  import opened Kaggle
  import opened KaggleGenerator
  import opened KagglePairs
  import opened Ocsf
  import opened Options
  import opened Text

  // ----- What of the fields the event shows -----

  /** Two events that differ at most in the raw line they carry. */
  predicate SameMeaning(a: NetworkActivity, b: NetworkActivity) {
    a == b.(metadata := b.metadata.(rawData := a.metadata.rawData))
  }

  /** Everything of the fields that reaches the event. */
  predicate FieldsAgree(f: Fields, g: Fields) {
    && f.srcPort == g.srcPort && f.dstPort == g.dstPort && f.natSrcPort == g.natSrcPort && f.natDstPort == g.natDstPort
    && f.elapsed == g.elapsed && f.sentBytes == g.sentBytes && f.rcvdBytes == g.rcvdBytes
    && f.pktsSent == g.pktsSent && f.pktsRcvd == g.pktsRcvd
    && Verdict(f.action) == Verdict(g.action) && f.unmapped == g.unmapped
  }

  function Notes(f: Fields): map<string, string> {
    Noted(Noted(Noted(map[], "nat_src_port", f.natSrcPort), "nat_dst_port", f.natDstPort), "elapsed_sec", f.elapsed)
  }

  lemma NotesOf(f: Fields)
    ensures "nat_src_port" in Notes(f) <==> f.natSrcPort.Some?
    ensures "nat_dst_port" in Notes(f) <==> f.natDstPort.Some?
    ensures "elapsed_sec" in Notes(f) <==> f.elapsed.Some?
    ensures f.natSrcPort.Some? ==> Notes(f)["nat_src_port"] == ToDecimal(f.natSrcPort.value)
    ensures f.natDstPort.Some? ==> Notes(f)["nat_dst_port"] == ToDecimal(f.natDstPort.value)
    ensures f.elapsed.Some? ==> Notes(f)["elapsed_sec"] == ToDecimal(f.elapsed.value)
  {
    assert "nat_src_port"[4] != "nat_dst_port"[4];
  }

  lemma NotesInjective(f: Fields, g: Fields)
    requires Notes(f) == Notes(g)
    ensures f.natSrcPort == g.natSrcPort && f.natDstPort == g.natDstPort && f.elapsed == g.elapsed
  {
    NotesOf(f);
    NotesOf(g);
    if f.natSrcPort.Some? { DecimalInjective(f.natSrcPort.value, g.natSrcPort.value); }
    if f.natDstPort.Some? { DecimalInjective(f.natDstPort.value, g.natDstPort.value); }
    if f.elapsed.Some? { DecimalInjective(f.elapsed.value, g.elapsed.value); }
  }

  lemma TrafficInjective(f: Fields, g: Fields)
    requires TrafficOf(f) == TrafficOf(g)
    ensures f.sentBytes == g.sentBytes && f.rcvdBytes == g.rcvdBytes
    ensures f.pktsSent == g.pktsSent && f.pktsRcvd == g.pktsRcvd
  {
  }

  /** No name under which the event notes a field is taken by another pair. */
  predicate NamesFree(unmapped: map<string, string>) {
    forall name :: name in unmapped ==> KeyNamed(name).None?
  }

  lemma NoteNamesAreKeys()
    ensures KeyNamed("nat_src_port").Some? && KeyNamed("nat_dst_port").Some? && KeyNamed("elapsed_sec").Some?
  {
    KeyNamedInverse(NatSrcPort);
    KeyNamedInverse(NatDstPort);
    KeyNamedInverse(Elapsed);
  }

  lemma NotesAdded(m: map<string, string>, f: Fields)
    ensures Noted(Noted(Noted(m, "nat_src_port", f.natSrcPort), "nat_dst_port", f.natDstPort), "elapsed_sec", f.elapsed)
         == m + Notes(f)
  {
  }

  lemma NotesAreKeys(f: Fields)
    ensures forall name :: name in Notes(f) ==> KeyNamed(name).Some?
  {
    NoteNamesAreKeys();
  }

  /** The other pairs and the notes can be told apart. */
  lemma UnmappedInjective(m: map<string, string>, m': map<string, string>, n: map<string, string>,
                          n': map<string, string>)
    requires NamesFree(m) && NamesFree(m') && m + n == m' + n'
    requires forall name :: name in n || name in n' ==> KeyNamed(name).Some?
    ensures m == m' && n == n'
  {
    assert forall name :: name in m ==> name in m + n && (m + n)[name] == m[name] && name !in n';
    assert forall name :: name in m' ==> name in m' + n' && (m' + n')[name] == m'[name] && name !in n;
    assert forall name :: name in n ==> (m + n)[name] == n[name] && name !in m';
    assert forall name :: name in n' ==> (m' + n')[name] == n'[name] && name !in m;
  }

  /** The parts of the event that the fields decide. */
  lemma EventParts(f: Fields, raw: string, clock: int)
    ensures var e := BuildOcsf(f, raw, clock);
      && e.srcEndpoint.port == f.srcPort && e.dstEndpoint.port == f.dstPort
      && e.traffic == TrafficOf(f) && (e.disposition, e.activityId) == Verdict(f.action)
      && (if e.unmapped.Some? then e.unmapped.value else map[]) == f.unmapped + Notes(f)
  {
    NotesAdded(f.unmapped, f);
  }

  lemma EqualFieldsEqualEvents(f: Fields, g: Fields, raw: string, raw': string, clock: int)
    requires FieldsAgree(f, g)
    ensures SameMeaning(BuildOcsf(f, raw, clock), BuildOcsf(g, raw', clock))
  {
    assert TrafficOf(f) == TrafficOf(g);
  }

  /** Two events mean the same exactly when these fields agree: the event hides none of them. */
  lemma {:induction false} SameMeaningExact(f: Fields, g: Fields, raw: string, raw': string, clock: int)
    requires NamesFree(f.unmapped) && NamesFree(g.unmapped)
    ensures SameMeaning(BuildOcsf(f, raw, clock), BuildOcsf(g, raw', clock)) <==> FieldsAgree(f, g)
  {
    if FieldsAgree(f, g) {
      EqualFieldsEqualEvents(f, g, raw, raw', clock);
    } else if SameMeaning(BuildOcsf(f, raw, clock), BuildOcsf(g, raw', clock)) {
      EventParts(f, raw, clock);
      EventParts(g, raw', clock);
      NotesAreKeys(f);
      NotesAreKeys(g);
      UnmappedInjective(f.unmapped, g.unmapped, Notes(f), Notes(g));
      NotesInjective(f, g);
      TrafficInjective(f, g);
    }
  }

  /** A header's event is that of no fields. */
  lemma HeaderMeansNothingElse(f: Fields, line: string, row: string, clock: int)
    ensures !SameMeaning(BuildOcsf(f, line, clock), HeaderEvent(row, clock))
  {
    assert BuildOcsf(f, line, clock).srcEndpoint.ip.Some? && HeaderEvent(row, clock).srcEndpoint.ip.None?;
  }

  // ----- Columns that say something else through syslog -----

  /** What is read back of the twelve values when nothing is hidden: the columns, or their defaults. */
  function ReadRow(columns: seq<string>): (values: seq<string>)
    ensures |values| == 12
  {
    seq(12, i requires 0 <= i < 12 => Read(ColumnOr(columns, i, DefaultFor(i))))
  }

  predicate KnownAction(a: string) {
    ToLower(a) in ["allow", "accept", "permit", "deny", "block", "drop", "reset-both", "close"]
  }

  /** Quotes at its ends or words behind the first keep the CSV branch from a value the syslog branch reads. */
  predicate HidesPort(v: string) {
    Read(v) != v && ParsePort(Read(v)).Some?
  }

  predicate HidesCount(v: string) {
    Read(v) != v && ParseCount(Read(v)).Some?
  }

  predicate HidesAction(v: string) {
    Read(v) != v && KnownAction(Read(v))
  }

  /** No column hides a value; the byte and packet totals do not reach the event. */
  predicate HidesNothing(columns: seq<string>)
    requires |columns| >= 12
  {
    && !HidesPort(columns[0]) && !HidesPort(columns[1]) && !HidesPort(columns[2]) && !HidesPort(columns[3])
    && !HidesAction(columns[4])
    && !HidesCount(columns[6]) && !HidesCount(columns[7]) && !HidesCount(columns[9])
    && !HidesCount(columns[10]) && !HidesCount(columns[11])
  }

  lemma {:induction false} NoDigits(s: string, i: nat)
    requires i < |s| && !('0' <= s[i] <= '9')
    ensures DigitsValue(s) == None
  {
    if i == |s| - 1 {
    } else {
      NoDigits(s[..|s| - 1], i);
    }
  }

  lemma NoNumeral(s: string, i: nat, limit: nat)
    requires i < |s| && !('0' <= s[i] <= '9') && s[i] != '+'
    ensures ParseUnsigned(s, limit) == None
  {
    if s[0] == '+' { NoDigits(s[1..], i - 1); } else { NoDigits(s, i); }
  }

  /** A value read differently has a space or a quote in it. */
  lemma {:induction false} ReadDiffers(v: string) returns (i: nat)
    requires Read(v) != v
    ensures i < |v| && (IsSpace(v[i]) || v[i] == '"')
  {
    var n := WordLength(v);
    if n < |v| {
      i := n;
    } else {
      assert v[..n] == v;
      i := if v[0] == '"' then 0 else |v| - 1;
    }
  }

  lemma {:induction false} ReadDiffersNoNumeral(v: string, limit: nat)
    requires Read(v) != v
    ensures ParseUnsigned(v, limit) == None
  {
    var i := ReadDiffers(v);
    NoNumeral(v, i, limit);
  }

  predicate ActionChars(s: string) {
    forall i :: 0 <= i < |s| ==> 'a' <= s[i] <= 'z' || s[i] == '-'
  }

  lemma KnownActionChars(a: string)
    requires KnownAction(a)
    ensures ActionChars(ToLower(a))
  {
    assert ActionChars("allow") && ActionChars("accept") && ActionChars("permit") && ActionChars("deny");
    assert ActionChars("block") && ActionChars("drop") && ActionChars("reset-both") && ActionChars("close");
  }

  lemma KnownHasNoMarks(a: string, i: nat)
    requires KnownAction(a) && i < |a|
    ensures !IsSpace(a[i]) && a[i] != '"'
  {
    KnownActionChars(a);
    assert 'a' <= ToLower(a)[i] <= 'z' || ToLower(a)[i] == '-';
  }

  lemma {:induction false} ReadDiffersUnknown(v: string)
    requires Read(v) != v
    ensures !KnownAction(v)
  {
    var i := ReadDiffers(v);
    if KnownAction(v) { KnownHasNoMarks(v, i); }
  }

  lemma VerdictKnown(a: string)
    ensures KnownAction(a) <==> Verdict(Some(a)) != (UNKNOWN, ACTIVITY_TRAFFIC_FLOW)
  {
    assert UNKNOWN[0] == 'U' && ALLOWED[0] == 'A' && BLOCKED[0] == 'B' && DROPPED[0] == 'D';
  }

  lemma {:induction false} PortReadAlike(v: string)
    ensures ParsePort(Read(v)) == ParsePort(v) <==> !HidesPort(v)
  {
    if Read(v) != v { ReadDiffersNoNumeral(v, PORT_LIMIT); }
  }

  lemma {:induction false} CountReadAlike(v: string)
    ensures ParseCount(Read(v)) == ParseCount(v) <==> !HidesCount(v)
  {
    if Read(v) != v { ReadDiffersNoNumeral(v, COUNT_LIMIT); }
  }

  lemma {:induction false} ActionReadAlike(v: string)
    ensures Verdict(Some(Read(v))) == Verdict(Some(v)) <==> !HidesAction(v)
  {
    if Read(v) != v {
      ReadDiffersUnknown(v);
      VerdictKnown(v);
      VerdictKnown(Read(v));
    }
  }

  lemma ReadZero()
    ensures Read("0") == "0" && ParseCount("0") == Some(0)
  {
    assert WordLength("0") == 1 && "0"[..1] == "0";
    ParseOfDecimal(0, COUNT_LIMIT);
    assert ToDecimal(0) == "0";
  }

  /** The fields agree exactly when the row has all twelve columns and none of them hides a value. */
  lemma {:induction false} WrittenAgrees(columns: seq<string>)
    requires |columns| >= 10
    ensures FieldsAgree(WrittenFields(ReadRow(columns)), CsvFields(columns))
       <==> |columns| >= 12 && HidesNothing(columns)
  {
    if |columns| < 12 {
      ReadZero();
      assert ReadRow(columns)[11] == "0";
      assert WrittenFields(ReadRow(columns)).pktsRcvd == Some(0) && CsvFields(columns).pktsRcvd == None;
    } else {
      PortReadAlike(columns[0]);
      PortReadAlike(columns[1]);
      PortReadAlike(columns[2]);
      PortReadAlike(columns[3]);
      ActionReadAlike(columns[4]);
      CountReadAlike(columns[6]);
      CountReadAlike(columns[7]);
      CountReadAlike(columns[9]);
      CountReadAlike(columns[10]);
      CountReadAlike(columns[11]);
    }
  }

  lemma {:induction false} CsvEvent(row: string, clock: int)
    requires |Columns(row)| >= 5
    ensures ParseCsv(Trim(row), row, clock) == Ok(BuildOcsf(CsvFields(Columns(row)), row, clock))
  {
    ColumnsOfTrim(row, ',');
  }

  // ----- Which branch a line takes -----

  predicate TidyRow(columns: seq<string>) {
    forall i :: 0 <= i < |columns| ==> Tidy(columns[i])
  }

  lemma ColumnsAreTidy(row: string)
    ensures TidyRow(Columns(row))
  {
    var columns, pieces := Columns(row), SplitOn(row, ',');
    forall i | 0 <= i < |columns| ensures Tidy(columns[i]) {
      TrimIsTidy(pieces[i]);
    }
  }

  lemma AppendedExtends(line: string, k: Key, v: string)
    requires Tidy(v) && line != ""
    ensures var t := Appended(line, k, v); line <= t && !IsSpace(t[|t| - 1])
  {
    KeyNameIsWord(k);
    var t := Appended(line, k, v);
    assert t[|t| - 1] == if v == "" then '=' else v[|v| - 1];
  }

  lemma PacketsExtend(line: string, columns: seq<string>)
    requires TidyRow(columns) && line != ""
    ensures var t := WithPackets(line, columns); line <= t && !IsSpace(t[|t| - 1])
  {
    var l := Appended(line, Packets, ColumnOr(columns, 8, "0"));
    var l' := Appended(l, Elapsed, ColumnOr(columns, 9, "0"));
    var l'' := Appended(l', PktsSent, ColumnOr(columns, 10, "0"));
    AppendedExtends(l'', PktsRcvd, ColumnOr(columns, 11, "0"));
    assert line <= l <= l' <= l'';
  }

  lemma ActionExtends(columns: seq<string>, timestamp: string)
    ensures var t := WithAction(columns, timestamp); Preamble(timestamp) <= t && t != "" && t[0] == '<'
  {
    assert Preamble(timestamp)[0] == '<';
  }

  lemma PortsExtend(line: string, columns: seq<string>)
    ensures line <= WithPorts(line, columns)
  {
  }

  lemma BytesExtend(line: string, columns: seq<string>)
    ensures line <= WithBytes(line, columns)
  {
  }

  lemma {:induction false} NumbersExtend(line: string, columns: seq<string>, whole: string)
    requires TidyRow(columns) && line != "" && whole == WithNumbers(line, columns)
    ensures line <= whole && !IsSpace(whole[|whole| - 1])
  {
    var ports := WithPorts(line, columns);
    PortsExtend(line, columns);
    BytesExtend(ports, columns);
    PacketsExtend(WithBytes(ports, columns), columns);
  }

  predicate LineFrom(preamble: string, line: string) {
    preamble <= line && line != "" && line[0] == '<' && Trim(line) == line
  }

  lemma ExtendedIsTrimmed(preamble: string, action: string, line: string)
    requires preamble <= action <= line && action != "" && action[0] == '<' && !IsSpace(line[|line| - 1])
    ensures LineFrom(preamble, line)
  {
    TrimmedIsFixed(line);
  }

  lemma PreambleIsMarked(timestamp: string, line: string)
    requires Preamble(timestamp) <= line
    ensures Contains(line, MARKER)
  {
    var rest := line[|Preamble(timestamp)|..];
    assert line == Preamble(timestamp) + rest;
    var front := "<134>" + timestamp + " firewall-kaggle-01 ";
    ContainsInMiddle(front, MARKER, "1-TRAFFIC:" + rest);
    assert Preamble(timestamp) + rest == front + MARKER + ("1-TRAFFIC:" + rest);
  }

  lemma NotHeader(line: string)
    requires line != "" && line[0] == '<'
    ensures !IsHeader(line)
  {
    assert "Source Port"[0] != '<' && "source port"[0] != '<';
  }

  predicate TakesSyslogBranch(trimmed: string) {
    !IsHeader(trimmed) && Contains(trimmed, MARKER)
  }

  lemma MarkedLine(timestamp: string, line: string)
    requires LineFrom(Preamble(timestamp), line)
    ensures TakesSyslogBranch(Trim(line))
  {
    PreambleIsMarked(timestamp, line);
    NotHeader(line);
  }

  lemma {:induction false} LineIsSyslog(columns: seq<string>, timestamp: string, line: string)
    requires TidyRow(columns) && line == SyslogLine(columns, timestamp)
    ensures TakesSyslogBranch(Trim(line))
  {
    var action := WithAction(columns, timestamp);
    ActionExtends(columns, timestamp);
    NumbersExtend(action, columns, line);
    ExtendedIsTrimmed(Preamble(timestamp), action, line);
    MarkedLine(timestamp, line);
  }

  lemma HeaderHasSpace(c: string)
    requires ToLower(c) == "source port"
    ensures !NoSpace(c)
  {
    assert ToLower(c)[6] == ' ';
    assert IsSpace(c[6]);
  }

  lemma {:induction false} TrimEndKeeps(front: string, rest: string)
    requires front != "" && !IsSpace(front[|front| - 1])
    ensures front <= TrimEnd(front + rest)
    decreases |rest|
  {
    var s := front + rest;
    if rest != "" && IsSpace(rest[|rest| - 1]) {
      assert s[..|s| - 1] == front + rest[..|rest| - 1];
      TrimEndKeeps(front, rest[..|rest| - 1]);
    } else if rest == "" {
      assert s == front;
    }
  }

  /** A header's first column has a space in it. */
  lemma HeaderColumn(header: string, rest: string)
    requires header == "Source Port" || header == "source port"
    ensures !NoSpace(Columns(header + rest)[0])
  {
    FirstPiece(header, rest, ',');
    var piece := header + SplitOn(rest, ',')[0];
    TrimEndKeeps(header, SplitOn(rest, ',')[0]);
    assert TrimStart(piece) == piece;
    var column := Trim(piece);
    assert column[6] == header[6] == ' ';
  }

  lemma CleanRowIsNoHeader(row: string)
    requires NoSpace(Columns(row)[0])
    ensures !IsHeader(Trim(row))
  {
    var t := Trim(row);
    ColumnsOfTrim(row, ',');
    if IsHeader(t) {
      assert t == t[..11] + t[11..];
      HeaderColumn(t[..11], t[11..]);
    }
  }
  // ----- The translation -----

  /** What the parser makes of the row itself, unless it is a header. */
  function DirectFields(row: string): Fields {
    if Contains(Trim(row), MARKER) then SyslogFields(Trim(row)) else CsvFields(Columns(row))
  }

  /** What it makes of the generator's line. */
  function HeardFields(columns: seq<string>, timestamp: string): Fields {
    WrittenFields(Believed(columns)).(unmapped := Others(StrayPairs(columns, timestamp)))
  }

  lemma SyslogEvent(columns: seq<string>, timestamp: string, clock: int)
    requires TidyRow(columns)
    ensures var line := SyslogLine(columns, timestamp);
      ParseKaggle(line, clock) == Ok(BuildOcsf(HeardFields(columns, timestamp), line, clock))
  {
    var line := SyslogLine(columns, timestamp);
    LineIsSyslog(columns, timestamp, line);
    WordsOfTrim(line);
    SyslogLineFields(columns, timestamp);
  }

  lemma DirectEvent(row: string, clock: int)
    requires |Columns(row)| >= 10 && !IsHeader(Trim(row))
    ensures ParseKaggle(row, clock) == Ok(BuildOcsf(DirectFields(row), row, clock))
  {
    CsvEvent(row, clock);
  }

  lemma DirectNamesFree(row: string)
    ensures NamesFree(DirectFields(row).unmapped)
  {
    LastPairWins(Words(Trim(row)));
    OthersAreNoKeys(PairsIn(Trim(row)));
  }

  /**
   For every row the generator takes, whatever it holds, and every timestamp: through syslog the row means
   what it means to the parser directly exactly when it is no header and the fields it is heard with agree
   with its own.
   */
  lemma {:induction false} MeaningKeptExact(row: string, timestamp: Option<string>, now: string, clock: int)
    requires RowToSyslog(row, timestamp, now).Some?
    ensures var viaSyslog := ParseKaggle(RowToSyslog(row, timestamp, now).value, clock);
      var direct := ParseKaggle(row, clock);
      && viaSyslog.Ok? && direct.Ok?
      && (SameMeaning(viaSyslog.value, direct.value)
          <==> && !IsHeader(Trim(row))
               && FieldsAgree(HeardFields(Columns(row), StampOf(timestamp, now)), DirectFields(row)))
  {
    var columns, stamp := Columns(row), StampOf(timestamp, now);
    var heard, line := HeardFields(columns, stamp), SyslogLine(columns, stamp);
    ColumnsAreTidy(row);
    SyslogEvent(columns, stamp, clock);
    if IsHeader(Trim(row)) {
      HeaderMeansNothingElse(heard, line, row, clock);
    } else {
      DirectEvent(row, clock);
      OthersAreNoKeys(StrayPairs(columns, stamp));
      DirectNamesFree(row);
      SameMeaningExact(heard, DirectFields(row), line, row, clock);
    }
  }

  /** A row the parser reads as CSV, and the generator does not take for the header. */
  predicate PlainRow(row: string) {
    |Columns(row)| >= 10 && ToLower(Columns(row)[0]) != "source port" && IsCsvRow(row)
  }

  /**
   For such rows: no pair hidden in the columns or the timestamp may have a name of its own, and what is
   believed of each column must parse to what the column does. A hidden pair is harmless exactly when a
   column written later overwrites it, or it says the same.
   */
  lemma {:induction false} HiddenPairsExact(row: string, timestamp: Option<string>, now: string, clock: int)
    requires PlainRow(row)
    ensures RowToSyslog(row, timestamp, now).Some?
    ensures var viaSyslog := ParseKaggle(RowToSyslog(row, timestamp, now).value, clock);
      var direct := ParseKaggle(row, clock);
      && viaSyslog.Ok? && direct.Ok?
      && (SameMeaning(viaSyslog.value, direct.value)
          <==> && OnlyKeys(StrayPairs(Columns(row), StampOf(timestamp, now)))
               && FieldsAgree(WrittenFields(Believed(Columns(row))), CsvFields(Columns(row))))
  {
    MeaningKeptExact(row, timestamp, now, clock);
    NoOthersExact(StrayPairs(Columns(row), StampOf(timestamp, now)));
  }

  // ----- Rows that hide no pair -----

  /** Nothing after the first word looks like a pair. */
  predicate Quiet(v: string) {
    Without(v[WordLength(v)..], '=')
  }

  /** No column hides a pair behind its first word. */
  predicate QuietRow(columns: seq<string>) {
    forall i :: 0 <= i < |columns| && i < 12 ==> Quiet(columns[i])
  }

  lemma QuietColumn(columns: seq<string>, i: nat)
    requires QuietRow(columns) && i < 12
    ensures Hidden(ColumnOr(columns, i, DefaultFor(i))) == []
  {
    var v := ColumnOr(columns, i, DefaultFor(i));
    if i < |columns| { assert Quiet(columns[i]); }
    NoPairsIn(v[WordLength(v)..]);
  }

  lemma {:induction false} QuietParts(parts: seq<seq<Pair>>)
    requires forall i :: 0 <= i < |parts| ==> parts[i] == []
    ensures Flat(parts) == []
  {
    if parts != [] { QuietParts(parts[1..]); }
  }

  lemma QuietHides(columns: seq<string>, i: nat)
    requires QuietRow(columns) && i <= 12
    ensures HiddenFrom(columns, i) == []
  {
    forall j | 0 <= j < 12 ensures HiddenParts(columns)[j] == [] {
      QuietColumn(columns, ColumnAt(j));
    }
    QuietParts(HiddenParts(columns)[i..]);
  }

  lemma QuietRowBelieved(columns: seq<string>)
    requires QuietRow(columns)
    ensures Believed(columns) == ReadRow(columns)
  {
    forall c | 0 <= c < 12 ensures Believed(columns)[c] == ReadRow(columns)[c] {
      QuietHides(columns, PlaceOfColumn(c));
    }
  }

  /**
   For rows that hide no pair: the meaning is kept exactly when the timestamp brings no name of its own, the
   row has all twelve columns and none of them hides a value.
   */
  lemma {:induction false} TranslationExact(row: string, timestamp: Option<string>, now: string, clock: int)
    requires PlainRow(row) && QuietRow(Columns(row))
    ensures RowToSyslog(row, timestamp, now).Some?
    ensures var viaSyslog := ParseKaggle(RowToSyslog(row, timestamp, now).value, clock);
      var direct := ParseKaggle(row, clock);
      && viaSyslog.Ok? && direct.Ok?
      && (SameMeaning(viaSyslog.value, direct.value)
          <==> && OnlyKeys(StampPairs(StampOf(timestamp, now)))
               && |Columns(row)| >= 12 && HidesNothing(Columns(row)))
  {
    var columns := Columns(row);
    HiddenPairsExact(row, timestamp, now, clock);
    QuietHides(columns, 0);
    QuietRowBelieved(columns);
    WrittenAgrees(columns);
    assert StampPairs(StampOf(timestamp, now)) + [] == StampPairs(StampOf(timestamp, now));
  }

  /** A column of one word, with no quote at either end. */
  predicate CleanColumn(v: string) {
    NoSpace(v) && (v != "" ==> v[0] != '"' && v[|v| - 1] != '"')
  }

  predicate CleanRow(columns: seq<string>) {
    |columns| >= 10 && forall i :: 0 <= i < |columns| && i < 12 ==> CleanColumn(columns[i])
  }

  lemma {:induction false} CleanIsRead(v: string)
    requires CleanColumn(v)
    ensures Quiet(v) && Read(v) == v
  {
    WordLengthAfter(v, "");
    assert v + "" == v && v[..|v|] == v;
  }

  lemma CleanRowHidesNothing(columns: seq<string>)
    requires CleanRow(columns)
    ensures QuietRow(columns) && NoSpace(columns[0]) && (|columns| >= 12 ==> HidesNothing(columns))
  {
    forall i | 0 <= i < |columns| && i < 12 ensures Quiet(columns[i]) && Read(columns[i]) == columns[i] {
      CleanIsRead(columns[i]);
    }
  }

  /** For clean rows and a timestamp that brings no name of its own the number of columns decides alone. */
  lemma {:induction false} TranslationKeepsMeaning(row: string, timestamp: Option<string>, now: string, clock: int)
    requires CleanRow(Columns(row)) && !Contains(Trim(row), MARKER) && OnlyKeys(StampPairs(StampOf(timestamp, now)))
    ensures RowToSyslog(row, timestamp, now).Some?
    ensures var viaSyslog := ParseKaggle(RowToSyslog(row, timestamp, now).value, clock);
      var direct := ParseKaggle(row, clock);
      && viaSyslog.Ok? && direct.Ok?
      && (SameMeaning(viaSyslog.value, direct.value) <==> |Columns(row)| >= 12)
  {
    var columns := Columns(row);
    CleanRowHidesNothing(columns);
    CleanRowIsNoHeader(row);
    if ToLower(columns[0]) == "source port" { HeaderHasSpace(columns[0]); }
    TranslationExact(row, timestamp, now, clock);
  }

  lemma SecondPairInColumn(line: string, v: string, port: string)
    ensures Appended(line, PktsRcvd, v + " src_port=" + port) == Appended(Appended(line, PktsRcvd, v), SrcPort, port)
  {
    assert KeyName(SrcPort) + "=" == "src_port=";
    assert " " + ("src_port=" + port) == " src_port=" + port;
  }

  lemma LastColumn(columns: seq<string>, timestamp: string) returns (line: string)
    requires |columns| >= 12
    ensures SyslogLine(columns, timestamp) == Appended(line, PktsRcvd, columns[11])
  {
    var bytes := WithBytes(WithPorts(WithAction(columns, timestamp), columns), columns);
    line := Appended(Appended(Appended(bytes, Packets, columns[8]), Elapsed, columns[9]), PktsSent, columns[10]);
  }

  /** Behind the first word a pair is believed: a packet count with `src_port=` in it sets the source port. */
  lemma {:induction false} PairInColumnBelieved(columns: seq<string>, timestamp: string, v: string, port: string)
    requires |columns| >= 12 && columns[11] == v + " src_port=" + port && Quiet(port)
    ensures SyslogFields(SyslogLine(columns, timestamp)).srcPort == ParsePort(Read(port))
  {
    var line := LastColumn(columns, timestamp);
    SecondPairInColumn(line, v, port);
    AppendedPairs(Appended(line, PktsRcvd, v), SrcPort, port);
    NoPairsIn(port[WordLength(port)..]);
    LastPairWins(Words(SyslogLine(columns, timestamp)));
    LastOfOneMore(PairsIn(Appended(line, PktsRcvd, v)), Pair(KeyName(SrcPort), Read(port)), SrcPort);
    KeyNamedInverse(SrcPort);
    assert [Pair(KeyName(SrcPort), Read(port))] + [] == [Pair(KeyName(SrcPort), Read(port))];
  }
}
