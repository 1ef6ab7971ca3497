/** The parser of the firewall data set, with its CSV and its syslog branch. Clock readings are inputs. */
module Kaggle {
  import opened Decimal
  import opened Ocsf
  import opened Options
  import opened Text

  const PORT_LIMIT := 0x1_0000
  const COUNT_LIMIT := 0x1_0000_0000_0000_0000
  const MARKER := "%KAGGLE-FW-"

  // ----- The fields both branches fill in -----

  datatype Key = SrcPort | DstPort | NatSrcPort | NatDstPort | Action | ByteCount | SentBytes | RcvdBytes
               | Packets | Elapsed | PktsSent | PktsRcvd

  function KeyName(k: Key): string {
    match k
    case SrcPort => "src_port"
    case DstPort => "dst_port"
    case NatSrcPort => "nat_src_port"
    case NatDstPort => "nat_dst_port"
    case Action => "action"
    case ByteCount => "bytes"
    case SentBytes => "sent_bytes"
    case RcvdBytes => "rcvd_bytes"
    case Packets => "packets"
    case Elapsed => "elapsed_sec"
    case PktsSent => "pkts_sent"
    case PktsRcvd => "pkts_rcvd"
  }

  function KeyNamed(name: string): Option<Key> {
    if name == "src_port" then Some(SrcPort)
    else if name == "dst_port" then Some(DstPort)
    else if name == "nat_src_port" then Some(NatSrcPort)
    else if name == "nat_dst_port" then Some(NatDstPort)
    else if name == "action" then Some(Action)
    else if name == "bytes" then Some(ByteCount)
    else if name == "sent_bytes" then Some(SentBytes)
    else if name == "rcvd_bytes" then Some(RcvdBytes)
    else if name == "packets" then Some(Packets)
    else if name == "elapsed_sec" then Some(Elapsed)
    else if name == "pkts_sent" then Some(PktsSent)
    else if name == "pkts_rcvd" then Some(PktsRcvd)
    else None
  }

  datatype Fields = Fields(
    srcPort: Option<nat>, dstPort: Option<nat>, natSrcPort: Option<nat>, natDstPort: Option<nat>,
    action: Option<string>, bytes: Option<nat>, sentBytes: Option<nat>, rcvdBytes: Option<nat>,
    packets: Option<nat>, elapsed: Option<nat>, pktsSent: Option<nat>, pktsRcvd: Option<nat>,
    unmapped: map<string, string>)

  const NO_FIELDS := Fields(None, None, None, None, None, None, None, None, None, None, None, None, map[])

  function ParsePort(s: string): Option<nat> {
    ParseUnsigned(s, PORT_LIMIT)
  }

  function ParseCount(s: string): Option<nat> {
    ParseUnsigned(s, COUNT_LIMIT)
  }

  function Store(f: Fields, k: Key, v: string): Fields {
    match k
    case SrcPort => f.(srcPort := ParsePort(v))
    case DstPort => f.(dstPort := ParsePort(v))
    case NatSrcPort => f.(natSrcPort := ParsePort(v))
    case NatDstPort => f.(natDstPort := ParsePort(v))
    case Action => f.(action := Some(v))
    case ByteCount => f.(bytes := ParseCount(v))
    case SentBytes => f.(sentBytes := ParseCount(v))
    case RcvdBytes => f.(rcvdBytes := ParseCount(v))
    case Packets => f.(packets := ParseCount(v))
    case Elapsed => f.(elapsed := ParseCount(v))
    case PktsSent => f.(pktsSent := ParseCount(v))
    case PktsRcvd => f.(pktsRcvd := ParseCount(v))
  }

  // ----- From fields to the event -----

  function ToLower(s: string): (t: string)
    ensures |t| == |s|
  {
    seq(|s|, i requires 0 <= i < |s| =>
      if 'A' <= s[i] <= 'Z' then (s[i] as int + 32) as char else s[i])
  }

  /** The private address a port number stands for: its two bytes under a fixed prefix. */
  function AddressOf(prefix: string, port: nat): string {
    prefix + ToDecimal(port / 256 % 256) + "." + ToDecimal(port % 256)
  }

  function OrZero(o: Option<nat>): nat {
    if o.Some? then o.value else 0
  }

  function Noted(m: map<string, string>, name: string, n: Option<nat>): map<string, string> {
    if n.Some? then m[name := ToDecimal(n.value)] else m
  }

  function Verdict(action: Option<string>): (string, nat) {
    if action.None? then (UNKNOWN, ACTIVITY_TRAFFIC_FLOW)
    else
      var a := ToLower(action.value);
      if a == "allow" || a == "accept" || a == "permit" then (ALLOWED, ACTIVITY_TRAFFIC_FLOW)
      else if a == "deny" || a == "block" then (BLOCKED, ACTIVITY_OTHER)
      else if a == "drop" then (DROPPED, ACTIVITY_OTHER)
      else if a == "reset-both" || a == "close" then (ALLOWED, ACTIVITY_CLOSE)
      else (UNKNOWN, ACTIVITY_TRAFFIC_FLOW)
  }

  function TrafficOf(f: Fields): Option<Traffic> {
    if f.sentBytes.Some? || f.rcvdBytes.Some? || f.pktsSent.Some? || f.pktsRcvd.Some?
    then Some(Traffic(f.rcvdBytes, f.sentBytes, f.pktsRcvd, f.pktsSent))
    else None
  }

  function MetadataOf(raw: string, clock: int): Metadata {
    Metadata(Product("Kaggle", "Firewall-Simulator"), raw, "", "", clock)
  }

  function BuildOcsf(f: Fields, raw: string, clock: int): NetworkActivity {
    var source, destination := OrZero(f.srcPort), OrZero(f.dstPort);
    var unmapped := Noted(Noted(Noted(f.unmapped, "nat_src_port", f.natSrcPort),
                                "nat_dst_port", f.natDstPort), "elapsed_sec", f.elapsed);
    var (disposition, activity) := Verdict(f.action);
    var connection := if destination == 53 || source == 53 then ConnectionInfo(Some(17), Some("UDP"))
                      else ConnectionInfo(Some(6), Some("TCP"));
    WithUnmapped(
      NetworkActivity(activity, clock, disposition,
                      Endpoint(Some(AddressOf("10.10.", source)), f.srcPort),
                      Endpoint(Some(AddressOf("10.20.", destination)), f.dstPort),
                      connection, TrafficOf(f), MetadataOf(raw, clock), None),
      unmapped)
  }

  // ----- The syslog branch -----

  function Absorb(f: Fields, word: string): Fields {
    match Find(word, '=')
    case None => f
    case Some(eq) =>
      var name, v := word[..eq], TrimMatches(word[eq + 1..], '"');
      match KeyNamed(name)
      case Some(k) => Store(f, k, v)
      case None => f.(unmapped := f.unmapped[name := v])
  }

  function AbsorbAll(words: seq<string>): Fields {
    if words == [] then NO_FIELDS
    else Absorb(AbsorbAll(words[..|words| - 1]), words[|words| - 1])
  }

  function SyslogFields(text: string): Fields {
    AbsorbAll(Words(text))
  }

  method ParseSyslog(trimmed: string, raw: string, clock: int) returns (activity: NetworkActivity)
    ensures activity == BuildOcsf(SyslogFields(trimmed), raw, clock)
  {
    var words, fields := Words(trimmed), NO_FIELDS;
    for i := 0 to |words|
      invariant fields == AbsorbAll(words[..i])
    {
      assert words[..i + 1][..i] == words[..i];
      var found := Find(words[i], '=');
      if found.Some? {
        var name, v := words[i][..found.value], TrimMatches(words[i][found.value + 1..], '"');
        var key := KeyNamed(name);
        fields := if key.Some? then Store(fields, key.value, v) else fields.(unmapped := fields.unmapped[name := v]);
      }
    }
    assert words[..|words|] == words;
    activity := BuildOcsf(fields, raw, clock);
  }

  // ----- The CSV branch -----

  function Columns(text: string): (columns: seq<string>)
    ensures |columns| > 0
  {
    TrimAll(SplitOn(text, ','))
  }

  function PortAt(columns: seq<string>, i: nat): Option<nat> {
    if i < |columns| then ParsePort(columns[i]) else None
  }

  function CountAt(columns: seq<string>, i: nat): Option<nat> {
    if i < |columns| then ParseCount(columns[i]) else None
  }

  function CsvFields(columns: seq<string>): Fields {
    Fields(PortAt(columns, 0), PortAt(columns, 1), PortAt(columns, 2), PortAt(columns, 3),
           if 4 < |columns| then Some(columns[4]) else None,
           CountAt(columns, 5), CountAt(columns, 6), CountAt(columns, 7), CountAt(columns, 8),
           CountAt(columns, 9), CountAt(columns, 10), CountAt(columns, 11), map[])
  }

  function ParseCsv(trimmed: string, raw: string, clock: int): Result<NetworkActivity, string> {
    var columns := Columns(trimmed);
    if |columns| < 5 then Err("Invalid Kaggle CSV line: " + trimmed)
    else Ok(BuildOcsf(CsvFields(columns), raw, clock))
  }

  // ----- The dispatch -----

  predicate IsHeader(trimmed: string) {
    "Source Port" <= trimmed || "source port" <= trimmed
  }

  function HeaderEvent(raw: string, clock: int): NetworkActivity {
    NetworkActivity(ACTIVITY_OTHER, clock, UNKNOWN, NO_ENDPOINT, NO_ENDPOINT, NO_CONNECTION, None,
                    MetadataOf(raw, clock), None)
  }

  function ParseKaggle(raw: string, clock: int): Result<NetworkActivity, string> {
    var trimmed := Trim(raw);
    if IsHeader(trimmed) then Ok(HeaderEvent(raw, clock))
    else if Contains(trimmed, MARKER) then Ok(BuildOcsf(SyslogFields(trimmed), raw, clock))
    else ParseCsv(trimmed, raw, clock)
  }

  /** The line is neither a header nor, by the marker, a syslog line. */
  predicate IsCsvRow(raw: string) {
    !IsHeader(Trim(raw)) && !Contains(Trim(raw), MARKER)
  }

  /**
   What a caller learns: parsing fails exactly for a row that is no header, holds no marker and has fewer than
   five columns; any event carries the line and the clock; a header says nothing else; and a CSV row gives its
   first two columns as the ports.
   */
  lemma {:induction false} ParseOutcome(raw: string, clock: int)
    ensures ParseKaggle(raw, clock).Err? <==> IsCsvRow(raw) && |Columns(raw)| < 5
    ensures ParseKaggle(raw, clock).Ok? ==>
      var e := ParseKaggle(raw, clock).value;
      && e.metadata == MetadataOf(raw, clock) && e.time == clock
      && (IsCsvRow(raw) ==> (e.srcEndpoint.port, e.dstEndpoint.port)
                            == (ParsePort(Columns(raw)[0]), ParsePort(Columns(raw)[1])))
    ensures IsHeader(Trim(raw)) ==>
      && ParseKaggle(raw, clock).Ok?
      && var e := ParseKaggle(raw, clock).value;
      && e.srcEndpoint == e.dstEndpoint == NO_ENDPOINT
      && e.traffic == None && e.unmapped == None && e.disposition == UNKNOWN
  {
    ColumnsOfTrim(raw, ',');
  }

  method Parse(raw: string, clock: int) returns (r: Result<NetworkActivity, string>)
    ensures r == ParseKaggle(raw, clock)
  {
    var trimmed := Trim(raw);
    if IsHeader(trimmed) {
      return Ok(HeaderEvent(raw, clock));
    } else if Contains(trimmed, MARKER) {
      var activity := ParseSyslog(trimmed, raw, clock);
      return Ok(activity);
    } else {
      return ParseCsv(trimmed, raw, clock);
    }
  }

  // ----- What a row says is what the event says -----

  /** A row that has every field. */
  predicate FullRow(f: Fields) {
    && f.srcPort.Some? && f.dstPort.Some? && f.natSrcPort.Some? && f.natDstPort.Some? && f.action.Some?
    && f.bytes.Some? && f.sentBytes.Some? && f.rcvdBytes.Some? && f.packets.Some? && f.elapsed.Some?
    && f.pktsSent.Some? && f.pktsRcvd.Some? && f.unmapped == map[]
    && f.srcPort.value < PORT_LIMIT && f.dstPort.value < PORT_LIMIT
    && f.natSrcPort.value < PORT_LIMIT && f.natDstPort.value < PORT_LIMIT
    && f.bytes.value < COUNT_LIMIT && f.sentBytes.value < COUNT_LIMIT && f.rcvdBytes.value < COUNT_LIMIT
    && f.packets.value < COUNT_LIMIT && f.elapsed.value < COUNT_LIMIT
    && f.pktsSent.value < COUNT_LIMIT && f.pktsRcvd.value < COUNT_LIMIT
  }

  function PrintedColumns(f: Fields): (columns: seq<string>)
    requires FullRow(f)
    ensures |columns| == 12
  {
    [ToDecimal(f.srcPort.value), ToDecimal(f.dstPort.value), ToDecimal(f.natSrcPort.value),
     ToDecimal(f.natDstPort.value), f.action.value, ToDecimal(f.bytes.value), ToDecimal(f.sentBytes.value),
     ToDecimal(f.rcvdBytes.value), ToDecimal(f.packets.value), ToDecimal(f.elapsed.value),
     ToDecimal(f.pktsSent.value), ToDecimal(f.pktsRcvd.value)]
  }

  lemma PrintedFields(f: Fields)
    requires FullRow(f)
    ensures CsvFields(PrintedColumns(f)) == f
  {
    ParseOfDecimal(f.srcPort.value, PORT_LIMIT);
    ParseOfDecimal(f.dstPort.value, PORT_LIMIT);
    ParseOfDecimal(f.natSrcPort.value, PORT_LIMIT);
    ParseOfDecimal(f.natDstPort.value, PORT_LIMIT);
    ParseOfDecimal(f.bytes.value, COUNT_LIMIT);
    ParseOfDecimal(f.sentBytes.value, COUNT_LIMIT);
    ParseOfDecimal(f.rcvdBytes.value, COUNT_LIMIT);
    ParseOfDecimal(f.packets.value, COUNT_LIMIT);
    ParseOfDecimal(f.elapsed.value, COUNT_LIMIT);
    ParseOfDecimal(f.pktsSent.value, COUNT_LIMIT);
    ParseOfDecimal(f.pktsRcvd.value, COUNT_LIMIT);
  }

  lemma NumeralIsColumn(n: nat)
    ensures var s := ToDecimal(n); Without(s, ',') && Trim(s) == s
  {
    TrimmedIsFixed(ToDecimal(n));
  }

  lemma PrintedRowColumns(f: Fields)
    requires FullRow(f) && Without(f.action.value, ',') && Trim(f.action.value) == f.action.value
    ensures Columns(JoinedBy(PrintedColumns(f), ',')) == PrintedColumns(f)
  {
    var columns := PrintedColumns(f);
    forall i | 0 <= i < |columns| ensures Without(columns[i], ',') && Trim(columns[i]) == columns[i] {
      if i != 4 {
        var n: nat :| columns[i] == ToDecimal(n);
        NumeralIsColumn(n);
      }
    }
    SplitOfJoined(columns, ',');
  }

  lemma NotesOfRow(a: string, b: string, c: string)
    ensures map[]["nat_src_port" := a]["nat_dst_port" := b]["elapsed_sec" := c]
      == map["nat_src_port" := a, "nat_dst_port" := b, "elapsed_sec" := c]
  {
  }

  lemma BlockedActions(action: string)
    ensures Verdict(Some(action)).0 == BLOCKED <==> ToLower(action) in {"deny", "block"}
  {
    assert BLOCKED[0] == 'B' && ALLOWED[0] == 'A' && DROPPED[0] == 'D' && UNKNOWN[0] == 'U';
    assert "deny" != "allow" && "deny" != "accept" && "deny" != "permit";
    assert "block" != "allow" && "block" != "accept" && "block" != "permit";
  }

  lemma EventOfRow(f: Fields, raw: string, clock: int)
    requires FullRow(f)
    ensures var e := BuildOcsf(f, raw, clock);
      && e.srcEndpoint.port == f.srcPort && e.dstEndpoint.port == f.dstPort
      && e.traffic == Some(Traffic(f.rcvdBytes, f.sentBytes, f.pktsRcvd, f.pktsSent))
      && (e.connectionInfo.protocolNum == Some(17) <==> 53 in {f.srcPort.value, f.dstPort.value})
      && e.metadata.rawData == raw && e.time == clock
      && e.disposition == Verdict(f.action).0
  {
  }

  lemma UnmappedOfRow(f: Fields, raw: string, clock: int)
    requires FullRow(f)
    ensures BuildOcsf(f, raw, clock).unmapped
      == Some(map["nat_src_port" := ToDecimal(f.natSrcPort.value), "nat_dst_port" := ToDecimal(f.natDstPort.value),
                  "elapsed_sec" := ToDecimal(f.elapsed.value)])
  {
    var a, b, c := ToDecimal(f.natSrcPort.value), ToDecimal(f.natDstPort.value), ToDecimal(f.elapsed.value);
    NotesOfRow(a, b, c);
    var notes := map["nat_src_port" := a, "nat_dst_port" := b, "elapsed_sec" := c];
    assert "elapsed_sec" in notes;
    assert notes != map[];
  }

  lemma {:induction false} ParseOfPrintedRow(f: Fields, raw: string, clock: int)
    requires FullRow(f) && Without(f.action.value, ',') && Trim(f.action.value) == f.action.value
    ensures ParseCsv(JoinedBy(PrintedColumns(f), ','), raw, clock) == Ok(BuildOcsf(f, raw, clock))
  {
    PrintedRowColumns(f);
    PrintedFields(f);
  }

  /** A printed row comes back with every value in its place. */
  lemma {:induction false} PrintedRowRead(f: Fields, raw: string, clock: int)
    requires FullRow(f) && Without(f.action.value, ',') && Trim(f.action.value) == f.action.value
    ensures var event := ParseCsv(JoinedBy(PrintedColumns(f), ','), raw, clock);
      && event.Ok?
      && var e := event.value;
      && e.srcEndpoint.port == f.srcPort && e.dstEndpoint.port == f.dstPort
      && e.traffic == Some(Traffic(f.rcvdBytes, f.sentBytes, f.pktsRcvd, f.pktsSent))
      && e.unmapped == Some(map["nat_src_port" := ToDecimal(f.natSrcPort.value),
                                "nat_dst_port" := ToDecimal(f.natDstPort.value),
                                "elapsed_sec" := ToDecimal(f.elapsed.value)])
      && (e.connectionInfo.protocolNum == Some(17) <==> 53 in {f.srcPort.value, f.dstPort.value})
      && (e.disposition == BLOCKED <==> ToLower(f.action.value) in {"deny", "block"})
      && e.metadata.rawData == raw && e.time == clock
  {
    ParseOfPrintedRow(f, raw, clock);
    EventOfRow(f, raw, clock);
    UnmappedOfRow(f, raw, clock);
    BlockedActions(f.action.value);
  }

  lemma {:induction false} AddressParts(prefix: string, a: nat, b: nat)
    requires AddressOf(prefix, a) == AddressOf(prefix, b)
    ensures a / 256 % 256 == b / 256 % 256 && a % 256 == b % 256
  {
    var ah, al, bh, bl := ToDecimal(a / 256 % 256), ToDecimal(a % 256), ToDecimal(b / 256 % 256), ToDecimal(b % 256);
    var ta, tb := ah + "." + al, bh + "." + bl;
    assert AddressOf(prefix, a)[|prefix|..] == ta && AddressOf(prefix, b)[|prefix|..] == tb;
    FindFirst(ah, '.', al);
    FindFirst(bh, '.', bl);
    assert ta[..|ah|] == ah && tb[..|bh|] == bh && ta[|ah| + 1..] == al && tb[|bh| + 1..] == bl;
    DecimalInjective(a / 256 % 256, b / 256 % 256);
    DecimalInjective(a % 256, b % 256);
  }

  /** Different ports get different addresses. */
  lemma AddressInjective(prefix: string, a: nat, b: nat)
    requires a < PORT_LIMIT && b < PORT_LIMIT && AddressOf(prefix, a) == AddressOf(prefix, b)
    ensures a == b
  {
    AddressParts(prefix, a, b);
  }
}
