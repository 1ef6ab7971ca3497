/**
 The generator's syslog line of a firewall row, and what the syslog branch reads off it, for every row: a
 value is its column's first word, unless a pair behind the first word of a column says otherwise.
 */
module KaggleGenerator {
  import opened Kaggle
  import opened KagglePairs
  import opened Options
  import opened Text

  // ----- The generator -----

  function Appended(line: string, k: Key, v: string): string {
    line + " " + (KeyName(k) + "=" + v)
  }

  function ColumnOr(columns: seq<string>, i: nat, default: string): string {
    if i < |columns| then columns[i] else default
  }

  function Preamble(timestamp: string): string {
    "<134>" + timestamp + " firewall-kaggle-01 " + MARKER + "1-TRAFFIC:"
  }

  function WithPorts(line: string, columns: seq<string>): string {
    var l := Appended(line, SrcPort, ColumnOr(columns, 0, "0"));
    var l := Appended(l, DstPort, ColumnOr(columns, 1, "0"));
    var l := Appended(l, NatSrcPort, ColumnOr(columns, 2, "0"));
    Appended(l, NatDstPort, ColumnOr(columns, 3, "0"))
  }

  function WithBytes(line: string, columns: seq<string>): string {
    var l := Appended(line, ByteCount, ColumnOr(columns, 5, "0"));
    var l := Appended(l, SentBytes, ColumnOr(columns, 6, "0"));
    Appended(l, RcvdBytes, ColumnOr(columns, 7, "0"))
  }

  function WithPackets(line: string, columns: seq<string>): string {
    var l := Appended(line, Packets, ColumnOr(columns, 8, "0"));
    var l := Appended(l, Elapsed, ColumnOr(columns, 9, "0"));
    var l := Appended(l, PktsSent, ColumnOr(columns, 10, "0"));
    Appended(l, PktsRcvd, ColumnOr(columns, 11, "0"))
  }

  function WithAction(columns: seq<string>, timestamp: string): string {
    Appended(Preamble(timestamp), Action, Quoted(ColumnOr(columns, 4, "unknown")))
  }

  function WithNumbers(line: string, columns: seq<string>): string {
    WithPackets(WithBytes(WithPorts(line, columns), columns), columns)
  }

  function SyslogLine(columns: seq<string>, timestamp: string): string {
    WithNumbers(WithAction(columns, timestamp), columns)
  }

  /** `now` is the clock's text, used when the caller gives no timestamp. */
  function StampOf(timestamp: Option<string>, now: string): string {
    if timestamp.Some? then timestamp.value else now
  }

  function RowToSyslog(row: string, timestamp: Option<string>, now: string): Option<string> {
    var columns := Columns(row);
    if |columns| < 10 || ToLower(columns[0]) == "source port" then None
    else Some(SyslogLine(columns, StampOf(timestamp, now)))
  }

  // ----- Keys and words -----

  predicate NameChars(s: string) {
    forall i :: 0 <= i < |s| ==> 'a' <= s[i] <= 'z' || s[i] == '_'
  }

  lemma KeyNameChars(k: Key)
    ensures NameChars(KeyName(k)) && KeyName(k) != ""
  {
  }

  lemma KeyNameIsWord(k: Key)
    ensures NoSpace(KeyName(k)) && Without(KeyName(k), '=') && KeyName(k) != ""
  {
    KeyNameChars(k);
  }

  lemma KeyNamedInverse(k: Key)
    ensures KeyNamed(KeyName(k)) == Some(k)
  {
  }

  /** What the syslog branch reads where the generator wrote `v`: the first word, less quotes at its ends. */
  function Read(v: string): string {
    TrimMatches(v[..WordLength(v)], '"')
  }

  lemma QuotedWordLength(v: string)
    ensures WordLength(Quoted(v)) == if WordLength(v) < |v| then WordLength(v) + 1 else |v| + 2
  {
    assert Quoted(v) == ['"'] + (v + ['"']);
    WordLengthAfter(['"'], v + ['"']);
    WordLengthTail(v, '"');
  }

  lemma ReadQuotedWord(v: string)
    requires WordLength(v) == |v|
    ensures Read(Quoted(v)) == Read(v)
  {
    QuotedWordLength(v);
    assert v[..|v|] == v && Quoted(v)[..|v| + 2] == Quoted(v);
    TrimMatchesQuoted(v, '"');
  }

  lemma QuotedParts(v: string, n: nat)
    requires n < |v|
    ensures Quoted(v)[..n + 1] == ['"'] + v[..n] && Quoted(v)[n + 1..] == v[n..] + ['"']
  {
  }

  lemma QuoteInFront(s: string)
    ensures TrimMatches(['"'] + s, '"') == TrimMatches(s, '"')
  {
    assert (['"'] + s)[1..] == s;
  }

  lemma QuotedRead(v: string)
    requires WordLength(v) < |v|
    ensures Read(Quoted(v)) == Read(v)
  {
    var n := WordLength(v);
    QuotedWordLength(v);
    QuotedParts(v, n);
    assert Quoted(v)[..WordLength(Quoted(v))] == ['"'] + v[..n];
    QuoteInFront(v[..n]);
  }

  /** Quotes put around a value change neither. */
  /** Quotes put around a value do not change what is read. */
  lemma ReadQuoted(v: string)
    ensures Read(Quoted(v)) == Read(v)
  {
    if WordLength(v) == |v| { ReadQuotedWord(v); } else { QuotedRead(v); }
  }

  // ----- The pairs of one value -----

  /** The pairs behind the first word of a value. */
  function Hidden(v: string): seq<Pair> {
    PairsIn(v[WordLength(v)..])
  }

  /** The pairs of the line where the generator wrote `v`. */
  function Said(k: Key, v: string): seq<Pair> {
    [Pair(KeyName(k), Read(v))] + Hidden(v)
  }

  lemma PairOfWritten(k: Key, v: string)
    ensures PairOf(KeyName(k) + "=" + v) == [Pair(KeyName(k), TrimMatches(v, '"'))]
  {
    var name := KeyName(k);
    KeyNameIsWord(k);
    FindFirst(name, '=', v);
    var word := name + "=" + v;
    assert word[..|name|] == name && word[|name| + 1..] == v;
  }

  lemma PairWords(k: Key, v: string)
    ensures Words(KeyName(k) + "=" + v) == [KeyName(k) + "=" + v[..WordLength(v)]] + Words(v[WordLength(v)..])
  {
    KeyNameIsWord(k);
    WordsAfter(KeyName(k) + "=", v);
  }

  /** Words that are no pairs store nothing. */

  /** One more value on the line is its pairs at the end. */
  lemma AppendedPairs(line: string, k: Key, v: string)
    ensures PairsIn(Appended(line, k, v)) == PairsIn(line) + Said(k, v)
  {
    var n := WordLength(v);
    var word, others := KeyName(k) + "=" + v[..n], Words(v[n..]);
    WordsAcross(line, ' ', KeyName(k) + "=" + v);
    PairWords(k, v);
    PairsAcross(Words(line), [word] + others);
    PairsAcross([word], others);
    assert PairsOf([word]) == PairOf(word) + PairsOf([]);
    PairOfWritten(k, v[..n]);
  }

  lemma WithoutAppended(s: string, c: char, d: char)
    requires Without(s, c) && c != d
    ensures Without(s + [d], c)
  {
  }

  lemma PairOfQuoted(word: string)
    ensures PairOf(word + ['"']) == PairOf(word)
  {
    match Find(word, '=')
    case None =>
      WithoutAppended(word, '=', '"');
    case Some(eq) =>
      var name, v := word[..eq], word[eq + 1..];
      assert word == name + ['='] + v && word + ['"'] == name + ['='] + (v + ['"']);
      FindFirst(name, '=', v + ['"']);
      assert (word + ['"'])[..eq] == name && (word + ['"'])[eq + 1..] == v + ['"'];
      TrimMatchesTail(v, '"');
  }

  lemma FirstPairs(s: string)
    requires s != "" && !IsSpace(s[0])
    ensures PairsIn(s) == PairOf(s[..WordLength(s)]) + PairsIn(s[WordLength(s)..])
  {
    FirstWord(s);
  }

  lemma OnePair(s: string)
    requires s != "" && WordLength(s) == |s|
    ensures PairsIn(s) == PairOf(s)
  {
    FirstPairs(s);
    assert s[..|s|] == s && s[|s|..] == "";
  }

  lemma PairsBeforeQuoteHere(t: string)
    requires WordLength(t) == |t|
    ensures PairsIn(t + ['"']) == PairsIn(t)
  {
    WordLengthTail(t, '"');
    OnePair(t + ['"']);
    PairOfQuoted(t);
    if t != "" { OnePair(t); }
  }

  lemma PairsAfterWord(word: string, rest: string)
    requires word != "" && NoSpace(word) && rest != "" && IsSpace(rest[0])
    ensures PairsIn(word + rest) == PairOf(word) + PairsIn(rest)
  {
    WordsAfter(word, rest);
    assert word + rest[..0] == word && rest[0..] == rest;
  }

  lemma PairsBeforeQuoteLater(word: string, rest: string)
    requires word != "" && NoSpace(word) && rest != "" && IsSpace(rest[0])
    requires PairsIn(rest + ['"']) == PairsIn(rest)
    ensures PairsIn(word + rest + ['"']) == PairsIn(word + rest)
  {
    PairsAfterWord(word, rest);
    PairsAfterWord(word, rest + ['"']);
    assert word + rest + ['"'] == word + (rest + ['"']);
  }

  /** A quote at the end of a text is trimmed off its last pair. */
  lemma {:induction false} PairsBeforeQuote(t: string)
    ensures PairsIn(t + ['"']) == PairsIn(t)
    decreases |t|
  {
    var n := WordLength(t);
    if n == |t| {
      PairsBeforeQuoteHere(t);
    } else if n == 0 {
      assert (t + ['"'])[1..] == t[1..] + ['"'];
      PairsBeforeQuote(t[1..]);
    } else {
      PairsBeforeQuote(t[n..]);
      PairsBeforeQuoteLater(t[..n], t[n..]);
      assert t[..n] + t[n..] == t;
    }
  }

  lemma SaidQuoted(k: Key, v: string)
    ensures Said(k, Quoted(v)) == Said(k, v)
  {
    var n := WordLength(v);
    ReadQuoted(v);
    QuotedWordLength(v);
    if n < |v| {
      QuotedParts(v, n);
      PairsBeforeQuote(v[n..]);
    } else {
      assert v[n..] == Quoted(v)[|v| + 2..] == "";
    }
  }

  // ----- The values in the order they are written -----

  function DefaultFor(i: nat): string {
    if i == 4 then "unknown" else "0"
  }

  function KeyAt(i: nat): Key
    requires i < 12
  {
    match i
    case 0 => Action
    case 1 => SrcPort
    case 2 => DstPort
    case 3 => NatSrcPort
    case 4 => NatDstPort
    case 5 => ByteCount
    case 6 => SentBytes
    case 7 => RcvdBytes
    case 8 => Packets
    case 9 => Elapsed
    case 10 => PktsSent
    case 11 => PktsRcvd
  }

  function PlaceOf(k: Key): (i: nat)
    ensures i < 12 && KeyAt(i) == k
  {
    match k
    case Action => 0
    case SrcPort => 1
    case DstPort => 2
    case NatSrcPort => 3
    case NatDstPort => 4
    case ByteCount => 5
    case SentBytes => 6
    case RcvdBytes => 7
    case Packets => 8
    case Elapsed => 9
    case PktsSent => 10
    case PktsRcvd => 11
  }

  /** The action is written first and is the fifth column. */
  function ColumnAt(i: nat): (column: nat)
    requires i < 12
    ensures column < 12
  {
    if i == 0 then 4 else if i <= 4 then i - 1 else i
  }

  function PlaceOfColumn(column: nat): (i: nat)
    requires column < 12
    ensures i < 12 && ColumnAt(i) == column
  {
    if column == 4 then 0 else if column < 4 then column + 1 else column
  }

  function ValueAt(columns: seq<string>, i: nat): string
    requires i < 12
  {
    ColumnOr(columns, ColumnAt(i), DefaultFor(ColumnAt(i)))
  }

  /** The pairs of the twelve values, in the order they are written. */
  function SaidParts(columns: seq<string>): (parts: seq<seq<Pair>>)
    ensures |parts| == 12
  {
    seq(12, i requires 0 <= i < 12 => Said(KeyAt(i), ValueAt(columns, i)))
  }

  function HiddenParts(columns: seq<string>): (parts: seq<seq<Pair>>)
    ensures |parts| == 12
  {
    seq(12, i requires 0 <= i < 12 => Hidden(ValueAt(columns, i)))
  }

  function Spoken(columns: seq<string>, i: nat): seq<Pair>
    requires i <= 12
  {
    Flat(SaidParts(columns)[i..])
  }

  /** The pairs behind the first words of the values written from place `i` on. */
  function HiddenFrom(columns: seq<string>, i: nat): seq<Pair>
    requires i <= 12
  {
    Flat(HiddenParts(columns)[i..])
  }

  lemma AppendedBefore(line: string, k: Key, value: string, v: string, rest: seq<Pair>)
    requires v == value || v == Quoted(value)
    ensures PairsIn(Appended(line, k, v)) + rest == PairsIn(line) + (Said(k, value) + rest)
  {
    AppendedPairs(line, k, v);
    SaidQuoted(k, value);
  }

  /** `after` is the line `before` with the value of place `i` written, in quotes or not. */
  predicate Writes(before: string, after: string, columns: seq<string>, i: nat)
    requires i < 12
  {
    || after == Appended(before, KeyAt(i), ValueAt(columns, i))
    || after == Appended(before, KeyAt(i), Quoted(ValueAt(columns, i)))
  }

  lemma ValueSpoken(before: string, after: string, columns: seq<string>, i: nat)
    requires i < 12 && Writes(before, after, columns, i)
    ensures PairsIn(after) + Spoken(columns, i + 1) == PairsIn(before) + Spoken(columns, i)
  {
    var k, value := KeyAt(i), ValueAt(columns, i);
    FlatFrom(SaidParts(columns), i);
    if after == Appended(before, k, value) {
      AppendedBefore(before, k, value, value, Spoken(columns, i + 1));
    } else {
      AppendedBefore(before, k, value, Quoted(value), Spoken(columns, i + 1));
    }
  }

  lemma ThreeSpoken(a: string, b: string, c: string, d: string, columns: seq<string>, i: nat)
    requires i + 2 < 12 && Writes(a, b, columns, i) && Writes(b, c, columns, i + 1) && Writes(c, d, columns, i + 2)
    ensures PairsIn(d) + Spoken(columns, i + 3) == PairsIn(a) + Spoken(columns, i)
  {
    ValueSpoken(a, b, columns, i);
    ValueSpoken(b, c, columns, i + 1);
    ValueSpoken(c, d, columns, i + 2);
  }

  lemma FourSpoken(a: string, b: string, c: string, d: string, e: string, columns: seq<string>, i: nat)
    requires i + 3 < 12 && Writes(a, b, columns, i) && Writes(b, c, columns, i + 1)
    requires Writes(c, d, columns, i + 2) && Writes(d, e, columns, i + 3)
    ensures PairsIn(e) + Spoken(columns, i + 4) == PairsIn(a) + Spoken(columns, i)
  {
    ThreeSpoken(a, b, c, d, columns, i);
    ValueSpoken(d, e, columns, i + 3);
  }

  lemma PortsSpoken(line: string, columns: seq<string>)
    ensures PairsIn(WithPorts(line, columns)) + Spoken(columns, 5) == PairsIn(line) + Spoken(columns, 1)
  {
    var l := Appended(line, SrcPort, ColumnOr(columns, 0, "0"));
    var l' := Appended(l, DstPort, ColumnOr(columns, 1, "0"));
    var l'' := Appended(l', NatSrcPort, ColumnOr(columns, 2, "0"));
    FourSpoken(line, l, l', l'', WithPorts(line, columns), columns, 1);
  }

  lemma BytesSpoken(line: string, columns: seq<string>)
    ensures PairsIn(WithBytes(line, columns)) + Spoken(columns, 8) == PairsIn(line) + Spoken(columns, 5)
  {
    var l := Appended(line, ByteCount, ColumnOr(columns, 5, "0"));
    var l' := Appended(l, SentBytes, ColumnOr(columns, 6, "0"));
    ThreeSpoken(line, l, l', WithBytes(line, columns), columns, 5);
  }

  lemma PacketsSpoken(line: string, columns: seq<string>)
    ensures PairsIn(WithPackets(line, columns)) + Spoken(columns, 12) == PairsIn(line) + Spoken(columns, 8)
  {
    var l := Appended(line, Packets, ColumnOr(columns, 8, "0"));
    var l' := Appended(l, Elapsed, ColumnOr(columns, 9, "0"));
    var l'' := Appended(l', PktsSent, ColumnOr(columns, 10, "0"));
    FourSpoken(line, l, l', l'', WithPackets(line, columns), columns, 8);
  }

  /** The pairs the caller's timestamp brings along. */
  function StampPairs(timestamp: string): seq<Pair> {
    PairsIn("<134>" + timestamp)
  }

  lemma {:induction false} NoPairsOf(words: seq<string>)
    requires forall w :: w in words ==> Without(w, '=')
    ensures PairsOf(words) == []
  {
    if words != [] {
      assert words[0] in words && Find(words[0], '=') == None;
      NoPairsOf(words[1..]);
    }
  }

  lemma NoPairsIn(text: string)
    requires Without(text, '=')
    ensures PairsIn(text) == []
  {
    WordsWithout(text, '=');
    NoPairsOf(Words(text));
  }

  lemma PairsBeforeQuiet(front: string, back: string)
    requires Without(back, '=')
    ensures PairsIn(front + [' '] + back) == PairsIn(front)
  {
    WordsAcross(front, ' ', back);
    PairsAcross(Words(front), Words(back));
    NoPairsIn(back);
  }

  const HOST := "firewall-kaggle-01 "
  const TAG := "1-TRAFFIC:"

  lemma PreambleParts(timestamp: string)
    ensures Preamble(timestamp) == ("<134>" + timestamp) + [' '] + (HOST + MARKER + TAG)
  {
    assert " firewall-kaggle-01 " == [' '] + HOST;
  }

  lemma HostHasNoPairs()
    ensures Without(HOST + MARKER + TAG, '=')
  {
    assert Without(HOST, '=') && Without(MARKER, '=') && Without(TAG, '=');
  }

  lemma PreamblePairs(timestamp: string)
    ensures PairsIn(Preamble(timestamp)) == StampPairs(timestamp)
  {
    PreambleParts(timestamp);
    HostHasNoPairs();
    PairsBeforeQuiet("<134>" + timestamp, HOST + MARKER + TAG);
  }

  lemma NothingLeftToSay(pairs: seq<Pair>, columns: seq<string>)
    ensures pairs + Spoken(columns, 12) == pairs
  {
  }

  lemma ActionSpoken(columns: seq<string>, timestamp: string)
    ensures PairsIn(WithAction(columns, timestamp)) + Spoken(columns, 1)
         == PairsIn(Preamble(timestamp)) + Spoken(columns, 0)
  {
    ValueSpoken(Preamble(timestamp), WithAction(columns, timestamp), columns, 0);
  }

  lemma NumbersSpoken(line: string, columns: seq<string>)
    ensures PairsIn(WithNumbers(line, columns)) + Spoken(columns, 12) == PairsIn(line) + Spoken(columns, 1)
  {
    var ports := WithPorts(line, columns);
    PortsSpoken(line, columns);
    BytesSpoken(ports, columns);
    PacketsSpoken(WithBytes(ports, columns), columns);
  }

  /** The pairs of the whole line. */
  lemma LinePairs(columns: seq<string>, timestamp: string)
    ensures PairsIn(SyslogLine(columns, timestamp)) == StampPairs(timestamp) + Spoken(columns, 0)
  {
    PreamblePairs(timestamp);
    ActionSpoken(columns, timestamp);
    NumbersSpoken(WithAction(columns, timestamp), columns);
    NothingLeftToSay(PairsIn(SyslogLine(columns, timestamp)), columns);
  }

  // ----- What is believed of a row -----

  /**
   The value the syslog branch takes for a key: that of the last pair of the key hidden in its own column or
   in one written later, and the first word of its column when there is none.
   */
  function BelievedAt(columns: seq<string>, i: nat): string
    requires i < 12
  {
    match LastFor(HiddenFrom(columns, i), KeyAt(i))
    case Some(v) => v
    case None => Read(ValueAt(columns, i))
  }

  lemma SaidFor(k: Key, v: string, k': Key)
    ensures LastFor(Said(k, v), k') == if LastFor(Hidden(v), k').Some? then LastFor(Hidden(v), k')
                                       else if k == k' then Some(Read(v)) else None
  {
    var own := [Pair(KeyName(k), Read(v))];
    KeyNamedInverse(k);
    LastAcross(own, Hidden(v), k');
    assert own[..0] == [];
  }

  lemma KeyOfAnotherPlace(i: nat, k: Key)
    requires i < 12 && i != PlaceOf(k)
    ensures KeyAt(i) != k
  {
  }

  lemma SaidLikeHidden(k: Key, v: string, k': Key)
    requires k != k'
    ensures LastFor(Said(k, v), k') == LastFor(Hidden(v), k')
  {
    SaidFor(k, v, k');
  }

  lemma OtherPlaceSilent(columns: seq<string>, i: nat, k: Key)
    requires i < 12 && i != PlaceOf(k)
    ensures LastFor(SaidParts(columns)[i], k) == LastFor(HiddenParts(columns)[i], k)
  {
    KeyOfAnotherPlace(i, k);
    SaidLikeHidden(KeyAt(i), ValueAt(columns, i), k);
  }

  /** Behind its own place a key is named by hidden pairs only. */
  lemma LaterSpoken(columns: seq<string>, i: nat, k: Key, place: nat)
    requires place == PlaceOf(k) && place < i <= 12
    ensures LastFor(Spoken(columns, i), k) == LastFor(HiddenFrom(columns, i), k)
  {
    var said, hidden := SaidParts(columns)[i..], HiddenParts(columns)[i..];
    forall j | 0 <= j < 12 - i ensures LastFor(said[j], k) == LastFor(hidden[j], k) {
      OtherPlaceSilent(columns, i + j, k);
    }
    LastOfFlat(said, hidden, k);
  }

  lemma SaidBeforeHidden(k: Key, v: string, rest: seq<Pair>, hidden: seq<Pair>)
    requires LastFor(rest, k) == LastFor(hidden, k)
    ensures var last := LastFor(Hidden(v) + hidden, k);
      LastFor(Said(k, v) + rest, k) == Some(if last.Some? then last.value else Read(v))
  {
    SaidFor(k, v, k);
    LastAcross(Said(k, v), rest, k);
    LastAcross(Hidden(v), hidden, k);
  }

  lemma SpokenAtOwnPlace(columns: seq<string>, i: nat)
    requires i < 12 && PlaceOf(KeyAt(i)) == i
    ensures LastFor(Spoken(columns, i), KeyAt(i)) == Some(BelievedAt(columns, i))
  {
    LaterSpoken(columns, i + 1, KeyAt(i), i);
    FlatFrom(SaidParts(columns), i);
    FlatFrom(HiddenParts(columns), i);
    SaidBeforeHidden(KeyAt(i), ValueAt(columns, i), Spoken(columns, i + 1), HiddenFrom(columns, i + 1));
  }

  lemma SpokenFor(columns: seq<string>, k: Key)
    ensures LastFor(Spoken(columns, 0), k) == Some(BelievedAt(columns, PlaceOf(k)))
  {
    var said, i := SaidParts(columns), PlaceOf(k);
    SpokenAtOwnPlace(columns, i);
    assert said[0..] == said[..i] + said[i..];
    FlatAcross(said[..i], said[i..]);
    LastAcross(Flat(said[..i]), Flat(said[i..]), k);
  }

  lemma OthersOfSaid(k: Key, v: string)
    ensures Others(Said(k, v)) == Others(Hidden(v))
  {
    var own := [Pair(KeyName(k), Read(v))];
    KeyNamedInverse(k);
    OthersAcross(own, Hidden(v));
    assert own[..0] == [];
  }

  lemma SpokenOthers(columns: seq<string>)
    ensures Others(Spoken(columns, 0)) == Others(HiddenFrom(columns, 0))
  {
    var said, hidden := SaidParts(columns)[0..], HiddenParts(columns)[0..];
    forall j | 0 <= j < 12 ensures Others(said[j]) == Others(hidden[j]) {
      OthersOfSaid(KeyAt(j), ValueAt(columns, j));
    }
    OthersOfFlat(said, hidden);
  }

  /** The twelve values, in the order of the columns. */
  function Believed(columns: seq<string>): (values: seq<string>)
    ensures |values| == 12
  {
    seq(12, c requires 0 <= c < 12 => BelievedAt(columns, PlaceOfColumn(c)))
  }

  function WrittenFields(values: seq<string>): Fields
    requires |values| == 12
  {
    Fields(ParsePort(values[0]), ParsePort(values[1]), ParsePort(values[2]), ParsePort(values[3]), Some(values[4]),
           ParseCount(values[5]), ParseCount(values[6]), ParseCount(values[7]), ParseCount(values[8]),
           ParseCount(values[9]), ParseCount(values[10]), ParseCount(values[11]), map[])
  }

  /** The pairs of the timestamp and the columns that the generator did not mean to write. */
  function StrayPairs(columns: seq<string>, timestamp: string): seq<Pair> {
    StampPairs(timestamp) + HiddenFrom(columns, 0)
  }

  lemma FieldsOfBelieved(pairs: seq<Pair>, columns: seq<string>)
    requires forall k :: LastFor(pairs, k) == Some(BelievedAt(columns, PlaceOf(k)))
    ensures LastFields(pairs) == WrittenFields(Believed(columns)).(unmapped := Others(pairs))
  {
  }

  /** What the syslog branch reads off the line of any row under any timestamp. */
  lemma {:induction false} SyslogLineFields(columns: seq<string>, timestamp: string)
    ensures SyslogFields(SyslogLine(columns, timestamp))
         == WrittenFields(Believed(columns)).(unmapped := Others(StrayPairs(columns, timestamp)))
  {
    var pairs := PairsIn(SyslogLine(columns, timestamp));
    LastPairWins(Words(SyslogLine(columns, timestamp)));
    LinePairs(columns, timestamp);
    forall k ensures LastFor(pairs, k) == Some(BelievedAt(columns, PlaceOf(k))) {
      LastAcross(StampPairs(timestamp), Spoken(columns, 0), k);
      SpokenFor(columns, k);
    }
    OthersAcross(StampPairs(timestamp), Spoken(columns, 0));
    OthersAcross(StampPairs(timestamp), HiddenFrom(columns, 0));
    SpokenOthers(columns);
    FieldsOfBelieved(pairs, columns);
  }
}
