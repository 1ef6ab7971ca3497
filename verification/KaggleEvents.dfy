/** The event of a firewall row, field by field, and the generator's line, character by character. */
module KaggleEvents {
  import opened Decimal
  import opened Kaggle
  import opened KaggleGenerator
  import opened Ocsf
  import opened Options
  import opened Text

  // ----- Words in any case -----

  /** The text is the word, with its letters in any case. */
  predicate Spells(s: string, word: string) {
    && |s| == |word|
    && forall i :: 0 <= i < |s| ==> s[i] == word[i] || ('a' <= word[i] <= 'z' && s[i] as int + 32 == word[i] as int)
  }

  predicate NoCapitals(word: string) {
    forall i :: 0 <= i < |word| ==> !('A' <= word[i] <= 'Z')
  }

  lemma SpellsLower(s: string, word: string)
    requires NoCapitals(word)
    ensures ToLower(s) == word <==> Spells(s, word)
  {
    if ToLower(s) == word {
      forall i | 0 <= i < |s|
        ensures s[i] == word[i] || ('a' <= word[i] <= 'z' && s[i] as int + 32 == word[i] as int)
      {
        assert ToLower(s)[i] == word[i];
      }
    }
    if Spells(s, word) { assert forall i :: 0 <= i < |s| ==> ToLower(s)[i] == word[i]; }
  }

  // ----- The verdict -----

  predicate SaysAllow(a: string) {
    Spells(a, "allow") || Spells(a, "accept") || Spells(a, "permit")
  }

  predicate SaysBlock(a: string) {
    Spells(a, "deny") || Spells(a, "block")
  }

  predicate SaysDrop(a: string) {
    Spells(a, "drop")
  }

  predicate SaysClose(a: string) {
    Spells(a, "reset-both") || Spells(a, "close")
  }

  lemma ActionsSpelled(a: string)
    ensures ToLower(a) == "allow" <==> Spells(a, "allow")
    ensures ToLower(a) == "accept" <==> Spells(a, "accept")
    ensures ToLower(a) == "permit" <==> Spells(a, "permit")
    ensures ToLower(a) == "deny" <==> Spells(a, "deny")
    ensures ToLower(a) == "block" <==> Spells(a, "block")
    ensures ToLower(a) == "drop" <==> Spells(a, "drop")
    ensures ToLower(a) == "reset-both" <==> Spells(a, "reset-both")
    ensures ToLower(a) == "close" <==> Spells(a, "close")
  {
    SpellsLower(a, "allow");
    SpellsLower(a, "accept");
    SpellsLower(a, "permit");
    SpellsLower(a, "deny");
    SpellsLower(a, "block");
    SpellsLower(a, "drop");
    SpellsLower(a, "reset-both");
    SpellsLower(a, "close");
  }

  lemma ActionsApart(t: string)
    ensures t == "allow" || t == "accept" || t == "permit" ==> t != "deny" && t != "block" && t != "drop"
    ensures t == "reset-both" || t == "close" ==> t != "allow" && t != "accept" && t != "permit"
    ensures t == "reset-both" || t == "close" ==> t != "deny" && t != "block" && t != "drop"
    ensures t == "deny" || t == "block" ==> t != "drop"
  {
    assert "allow"[1] == 'l' && "accept"[0] == 'a' && "permit"[0] == 'p' && "deny"[0] == 'd' && "block"[0] == 'b';
    assert "drop"[1] == 'r' && "deny"[1] == 'e' && "reset-both"[0] == 'r' && "close"[0] == 'c';
  }

  /** For every action: what the event says became of the connection, and what kind of activity it is. */
  lemma {:induction false} VerdictOfAction(a: string)
    ensures var (disposition, activity) := Verdict(Some(a));
      && (disposition == "Allowed" <==> SaysAllow(a) || SaysClose(a))
      && (disposition == "Blocked" <==> SaysBlock(a))
      && (disposition == "Dropped" <==> SaysDrop(a))
      && (disposition == "Unknown" <==> !SaysAllow(a) && !SaysClose(a) && !SaysBlock(a) && !SaysDrop(a))
      && (activity == 2 <==> SaysClose(a))
      && (activity == 99 <==> SaysBlock(a) || SaysDrop(a))
      && (activity == 3 <==> !SaysClose(a) && !SaysBlock(a) && !SaysDrop(a))
  {
    ActionsSpelled(a);
    ActionsApart(ToLower(a));
    assert "Allowed"[0] == 'A' && "Blocked"[0] == 'B' && "Dropped"[0] == 'D' && "Unknown"[0] == 'U';
  }

  // ----- The whole event -----

  /** The dotted address of a port under a prefix of two bytes. */
  function Address(prefix: string, port: nat): string {
    prefix + ToDecimal(port / 256) + "." + ToDecimal(port % 256)
  }

  lemma AddressIsDotted(prefix: string, port: nat)
    requires port < 0x1_0000
    ensures AddressOf(prefix, port) == Address(prefix, port)
  {
    assert port / 256 % 256 == port / 256;
  }

  function Given(n: Option<nat>): nat {
    match n
    case Some(v) => v
    case None => 0
  }

  /** Every field of the event of any row or line whose ports fit their type: where it came from and went to. */
  lemma {:induction false} EventEndpoints(f: Fields, raw: string, clock: int)
    requires Given(f.srcPort) < 0x1_0000 && Given(f.dstPort) < 0x1_0000
    ensures var e := BuildOcsf(f, raw, clock);
      && e.srcEndpoint == Endpoint(Some(Address("10.10.", Given(f.srcPort))), f.srcPort)
      && e.dstEndpoint == Endpoint(Some(Address("10.20.", Given(f.dstPort))), f.dstPort)
      && e.connectionInfo == (if Given(f.srcPort) == 53 || Given(f.dstPort) == 53
                              then ConnectionInfo(Some(17), Some("UDP")) else ConnectionInfo(Some(6), Some("TCP")))
  {
    AddressIsDotted("10.10.", Given(f.srcPort));
    AddressIsDotted("10.20.", Given(f.dstPort));
  }

  /** And what was said about it. */
  lemma {:induction false} EventDetails(f: Fields, raw: string, clock: int)
    ensures var e := BuildOcsf(f, raw, clock);
      && (e.traffic == None <==> f.sentBytes == f.rcvdBytes == f.pktsSent == f.pktsRcvd == None)
      && (e.traffic != None ==> e.traffic.value == Traffic(f.rcvdBytes, f.sentBytes, f.pktsRcvd, f.pktsSent))
      && e.metadata == Metadata(Product("Kaggle", "Firewall-Simulator"), raw, "", "", clock)
      && e.time == clock
      && (f.action == None ==> e.disposition == "Unknown" && e.activityId == 3)
      && (f.action != None ==> (e.disposition, e.activityId) == Verdict(f.action))
  {
  }

  /** The verdict on a printed row, for every action. */
  lemma {:induction false} PrintedRowVerdict(f: Fields, raw: string, clock: int)
    requires FullRow(f) && Without(f.action.value, ',') && Trim(f.action.value) == f.action.value
    ensures var event, a := ParseCsv(JoinedBy(PrintedColumns(f), ','), raw, clock), f.action.value;
      && event.Ok?
      && (event.value.disposition == "Allowed" <==> SaysAllow(a) || SaysClose(a))
      && (event.value.disposition == "Blocked" <==> SaysBlock(a))
      && (event.value.disposition == "Dropped" <==> SaysDrop(a))
      && (event.value.disposition == "Unknown" <==> !SaysAllow(a) && !SaysClose(a) && !SaysBlock(a) && !SaysDrop(a))
      && (event.value.activityId == 2 <==> SaysClose(a))
      && (event.value.activityId == 99 <==> SaysBlock(a) || SaysDrop(a))
      && (event.value.activityId == 3 <==> !SaysClose(a) && !SaysBlock(a) && !SaysDrop(a))
  {
    ParseOfPrintedRow(f, raw, clock);
    EventDetails(f, raw, clock);
    VerdictOfAction(f.action.value);
  }

  /** Trimming takes nothing off a front that begins and ends with no space. */
  lemma {:induction false} TrimKeepsFront(front: string, rest: string)
    requires front != "" && !IsSpace(front[0]) && !IsSpace(front[|front| - 1])
    ensures front <= Trim(front + rest)
    decreases |rest|
  {
    var s := front + rest;
    assert TrimStart(s) == s;
    if rest == "" {
      assert s == front;
    } else if IsSpace(rest[|rest| - 1]) {
      assert s[..|s| - 1] == front + rest[..|rest| - 1];
      assert TrimStart(front + rest[..|rest| - 1]) == front + rest[..|rest| - 1];
      TrimKeepsFront(front, rest[..|rest| - 1]);
    }
  }

  lemma {:induction false} HeaderIsEmptyEvent(rest: string, clock: int)
    ensures ParseKaggle("Source Port" + rest, clock).Ok? && ParseKaggle("source port" + rest, clock).Ok?
    ensures ParseKaggle("Source Port" + rest, clock).value.srcEndpoint == Endpoint(None, None)
    ensures ParseKaggle("source port" + rest, clock).value.srcEndpoint == Endpoint(None, None)
  {
    TrimKeepsFront("Source Port", rest);
    TrimKeepsFront("source port", rest);
  }

  // ----- The line -----

  /** What stands between one value and the next. */
  function Label(k: Key): string {
    match k
    case SrcPort => " src_port="
    case DstPort => " dst_port="
    case NatSrcPort => " nat_src_port="
    case NatDstPort => " nat_dst_port="
    case Action => " action="
    case ByteCount => " bytes="
    case SentBytes => " sent_bytes="
    case RcvdBytes => " rcvd_bytes="
    case Packets => " packets="
    case Elapsed => " elapsed_sec="
    case PktsSent => " pkts_sent="
    case PktsRcvd => " pkts_rcvd="
  }

  lemma LabelOfPort(k: Key)
    requires k.SrcPort? || k.DstPort? || k.NatSrcPort? || k.NatDstPort?
    ensures " " + KeyName(k) + "=" == Label(k)
  {
  }

  lemma LabelOfBytes(k: Key)
    requires k.Action? || k.ByteCount? || k.SentBytes? || k.RcvdBytes?
    ensures " " + KeyName(k) + "=" == Label(k)
  {
  }

  lemma LabelOfPackets(k: Key)
    requires k.Packets? || k.Elapsed? || k.PktsSent? || k.PktsRcvd?
    ensures " " + KeyName(k) + "=" == Label(k)
  {
  }

  lemma LabelSpelled(k: Key)
    ensures " " + KeyName(k) + "=" == Label(k)
  {
    if k.SrcPort? || k.DstPort? || k.NatSrcPort? || k.NatDstPort? {
      LabelOfPort(k);
    } else if k.Action? || k.ByteCount? || k.SentBytes? || k.RcvdBytes? {
      LabelOfBytes(k);
    } else {
      LabelOfPackets(k);
    }
  }

  lemma InOneGo(a: string, b: string, name: string, v: string)
    ensures a + b + (name + "=" + v) == a + (b + name + "=") + v
  {
  }

  lemma AppendedSpelled(line: string, k: Key, v: string)
    ensures Appended(line, k, v) == line + Label(k) + v
  {
    LabelSpelled(k);
    InOneGo(line, " ", KeyName(k), v);
  }

  lemma PortsSpelled(line: string, c: seq<string>)
    requires |c| >= 12
    ensures WithPorts(line, c) == line + Label(SrcPort) + c[0] + Label(DstPort) + c[1] + Label(NatSrcPort) + c[2]
                                  + Label(NatDstPort) + c[3]
  {
    var l := Appended(line, SrcPort, c[0]);
    var l' := Appended(l, DstPort, c[1]);
    var l'' := Appended(l', NatSrcPort, c[2]);
    AppendedSpelled(line, SrcPort, c[0]);
    AppendedSpelled(l, DstPort, c[1]);
    AppendedSpelled(l', NatSrcPort, c[2]);
    AppendedSpelled(l'', NatDstPort, c[3]);
  }

  lemma BytesSpelled(line: string, c: seq<string>)
    requires |c| >= 12
    ensures WithBytes(line, c) == line + Label(ByteCount) + c[5] + Label(SentBytes) + c[6] + Label(RcvdBytes) + c[7]
  {
    var l := Appended(line, ByteCount, c[5]);
    var l' := Appended(l, SentBytes, c[6]);
    AppendedSpelled(line, ByteCount, c[5]);
    AppendedSpelled(l, SentBytes, c[6]);
    AppendedSpelled(l', RcvdBytes, c[7]);
  }

  lemma PacketsSpelled(line: string, c: seq<string>)
    requires |c| >= 12
    ensures WithPackets(line, c) == line + Label(Packets) + c[8] + Label(Elapsed) + c[9] + Label(PktsSent) + c[10]
                                    + Label(PktsRcvd) + c[11]
  {
    var l := Appended(line, Packets, c[8]);
    var l' := Appended(l, Elapsed, c[9]);
    var l'' := Appended(l', PktsSent, c[10]);
    AppendedSpelled(line, Packets, c[8]);
    AppendedSpelled(l, Elapsed, c[9]);
    AppendedSpelled(l', PktsSent, c[10]);
    AppendedSpelled(l'', PktsRcvd, c[11]);
  }

  lemma ActionSpelled(c: seq<string>, timestamp: string)
    requires |c| >= 12
    ensures WithAction(c, timestamp)
         == "<134>" + timestamp + " firewall-kaggle-01 " + "%KAGGLE-FW-" + "1-TRAFFIC:" + Label(Action)
            + (['"'] + c[4] + ['"'])
  {
    AppendedSpelled(Preamble(timestamp), Action, Quoted(c[4]));
  }

  /** The line of a row of twelve columns, spelled out: every value behind its own label, in the order of the format. */
  lemma {:induction false} LineSpelled(c: seq<string>, timestamp: string)
    requires |c| >= 12
    ensures SyslogLine(c, timestamp)
         == "<134>" + timestamp + " firewall-kaggle-01 " + "%KAGGLE-FW-" + "1-TRAFFIC:"
            + Label(Action) + (['"'] + c[4] + ['"'])
            + Label(SrcPort) + c[0] + Label(DstPort) + c[1] + Label(NatSrcPort) + c[2] + Label(NatDstPort) + c[3]
            + Label(ByteCount) + c[5] + Label(SentBytes) + c[6] + Label(RcvdBytes) + c[7]
            + Label(Packets) + c[8] + Label(Elapsed) + c[9] + Label(PktsSent) + c[10] + Label(PktsRcvd) + c[11]
  {
    var action := WithAction(c, timestamp);
    var ports := WithPorts(action, c);
    ActionSpelled(c, timestamp);
    PortsSpelled(action, c);
    BytesSpelled(ports, c);
    PacketsSpelled(WithBytes(ports, c), c);
  }

  // ----- Rows that end early -----

  /** What is left of the fields when only the first `k` columns are there. */
  function FirstColumns(f: Fields, k: nat): Fields {
    Fields(if k > 0 then f.srcPort else None, if k > 1 then f.dstPort else None,
           if k > 2 then f.natSrcPort else None, if k > 3 then f.natDstPort else None,
           if k > 4 then f.action else None, if k > 5 then f.bytes else None,
           if k > 6 then f.sentBytes else None, if k > 7 then f.rcvdBytes else None,
           if k > 8 then f.packets else None, if k > 9 then f.elapsed else None,
           if k > 10 then f.pktsSent else None, if k > 11 then f.pktsRcvd else None, map[])
  }

  /** A printed row cut short gives the values it still has, each in its place. */
  lemma {:induction false} ShortRowRead(f: Fields, k: nat)
    requires FullRow(f) && k <= 12
    ensures CsvFields(PrintedColumns(f)[..k]) == FirstColumns(f, k)
  {
    PrintedFields(f);
    var all, some := CsvFields(PrintedColumns(f)), PrintedColumns(f)[..k];
    assert forall i: nat :: i < k ==> PortAt(some, i) == PortAt(PrintedColumns(f), i);
    assert forall i: nat :: i < k ==> CountAt(some, i) == CountAt(PrintedColumns(f), i);
  }

  // ----- Which rows the generator takes -----

  /** A row is taken exactly when it has ten columns or more and its first one does not name the header's. */
  lemma {:induction false} RowTakenExact(row: string, timestamp: Option<string>, now: string)
    ensures RowToSyslog(row, timestamp, now).Some?
       <==> |Columns(row)| >= 10 && !Spells(Columns(row)[0], "source port")
    ensures RowToSyslog(row, timestamp, now).Some? ==>
      RowToSyslog(row, timestamp, now).value
      == SyslogLine(Columns(row), if timestamp == None then now else timestamp.value)
  {
    SpellsLower(Columns(row)[0], "source port");
  }
}
