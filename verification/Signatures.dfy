/**
 The signature under which a log's format is cached, for an arbitrary hash of the text it feeds on, and two
 logs of one signature that are of different formats. Characters of a log are single bytes.
 */
module Signatures {
  import opened Kaggle
  import opened Options
  import opened SignatureCache
  import opened Text
  import opened UniversalParser

  const WINDOW := 96

  function Window(raw: string): string {
    raw[..if |raw| < WINDOW then |raw| else WINDOW]
  }

  /** `find(pattern)` for a pattern that is contained. */
  function PlaceOf(s: string, pattern: string): (i: nat)
    requires Contains(s, pattern)
    ensures i <= |s| && pattern <= s[i..]
  {
    if pattern <= s then
      assert s[0..] == s; 0
    else
      var i := PlaceOf(s[1..], pattern);
      assert s[i + 1..] == s[1..][i..]; i + 1
  }

  predicate IsBreak(c: char) {
    IsSpace(c) || c == ',' || c == ':'
  }

  function Pieces(s: string): (pieces: seq<string>)
    ensures pieces != []
  {
    if s == "" then [""]
    else
      var rest := Pieces(s[1..]);
      if IsBreak(s[0]) then [""] + rest else [[s[0]] + rest[0]] + rest[1..]
  }

  predicate Skipped(piece: string) {
    forall i :: 0 <= i < |piece| ==> '0' <= piece[i] <= '9'
  }

  /** The first `left` pieces that are neither empty nor numbers, fed to the hasher one after the other. */
  function FirstPieces(pieces: seq<string>, left: nat): string {
    if pieces == [] || left == 0 then ""
    else if Skipped(pieces[0]) then FirstPieces(pieces[1..], left)
    else pieces[0] + FirstPieces(pieces[1..], left - 1)
  }

  /** The text the hasher reads: an anchor of a vendor in the window, else its first three words. */
  function Fingerprint(raw: string): string {
    var w := Window(raw);
    if Contains(w, "%ASA-") then
      var at := PlaceOf(w, "%ASA-");
      w[at..if |w| < at + 16 then |w| else at + 16]
    else if Contains(w, "devname=") || Contains(w, "type=\"traffic\"") || Contains(w, "logid=") then "fortigate_traffic"
    else if Contains(w, "filterlog[") || Contains(w, "filterlog:") then "pfsense_filterlog"
    else if "{" <= w || Contains(w, "\"event_type\"") then "suricata_eve_json"
    else if Contains(w, ",TRAFFIC,") || Contains(w, ",THREAT,") then "paloalto_panos_csv"
    else FirstPieces(Pieces(w), 3)
  }

  function SignatureOf(hash: string -> nat, raw: string): nat {
    if raw == "" then 0 else hash(Fingerprint(raw))
  }

  /** No character that any anchor has. */
  predicate Plain(s: string) {
    Without(s, '%') && Without(s, '=') && Without(s, '[') && Without(s, ':') && Without(s, '{') && Without(s, '"')
    && Without(s, ',')
  }

  lemma {:induction false} PlainFingerprint(raw: string)
    requires Plain(raw)
    ensures Fingerprint(raw) == FirstPieces(Pieces(Window(raw)), 3)
  {
    var w := Window(raw);
    assert "%ASA-"[0] == '%' && "devname="[7] == '=' && "type=\"traffic\""[4] == '=' && "logid="[5] == '=';
    assert "filterlog["[9] == '[' && "filterlog:"[9] == ':' && "\"event_type\""[0] == '"';
    assert ",TRAFFIC,"[0] == ',' && ",THREAT,"[0] == ',';
    NotContained(w, "%ASA-", '%');
    NotContained(w, "devname=", '=');
    NotContained(w, "type=\"traffic\"", '=');
    NotContained(w, "logid=", '=');
    NotContained(w, "filterlog[", '[');
    NotContained(w, "filterlog:", ':');
    NotContained(w, "\"event_type\"", '"');
    NotContained(w, ",TRAFFIC,", ',');
    NotContained(w, ",THREAT,", ',');
  }

  predicate NoBreak(s: string) {
    forall i :: 0 <= i < |s| ==> !IsSpace(s[i]) && s[i] != ',' && s[i] != ':'
  }

  lemma PiecesStep(c: char, s: string)
    ensures Pieces([c] + s) == if IsBreak(c) then [""] + Pieces(s) else [[c] + Pieces(s)[0]] + Pieces(s)[1..]
  {
    assert ([c] + s)[1..] == s;
  }

  /** White space, a comma and a colon end a piece. */
  lemma {:induction false} PiecesAtBreak(word: string, end: char, rest: string)
    requires NoBreak(word) && (IsSpace(end) || end == ',' || end == ':')
    ensures Pieces(word + [end] + rest) == [word] + Pieces(rest)
  {
    if word == "" {
      assert word + [end] + rest == [end] + rest;
      PiecesStep(end, rest);
    } else {
      var c, tail := word[0], word[1..] + [end] + rest;
      assert word + [end] + rest == [c] + tail;
      PiecesAtBreak(word[1..], end, rest);
      PiecesStep(c, tail);
      assert [c] + word[1..] == word;
    }
  }

  lemma PiecesAfterWord(word: string, rest: string)
    requires NoBreak(word)
    ensures Pieces(word + " " + rest) == [word] + Pieces(rest)
  {
    PiecesAtBreak(word, ' ', rest);
  }

  lemma FirstPiecesStep(word: string, pieces: seq<string>, left: nat)
    requires left > 0 && !Skipped(word)
    ensures FirstPieces([word] + pieces, left) == word + FirstPieces(pieces, left - 1)
  {
    assert ([word] + pieces)[1..] == pieces;
  }

  /** Three words that count. */
  predicate Head(a: string, b: string, c: string) {
    && NoBreak(a) && NoBreak(b) && NoBreak(c) && !Skipped(a) && !Skipped(b) && !Skipped(c)
    && |a| + |b| + |c| + 3 <= WINDOW
  }

  function Headed(a: string, b: string, c: string, rest: string): string {
    a + " " + (b + " " + (c + " " + rest))
  }

  /** The window holds the head and a part of what follows. */
  lemma WindowOfHeaded(a: string, b: string, c: string, rest: string) returns (seen: string)
    requires Head(a, b, c)
    ensures Window(Headed(a, b, c, rest)) == Headed(a, b, c, seen)
  {
    var head := a + " " + b + " " + c + " ";
    assert Headed(a, b, c, rest) == head + rest;
    seen := rest[..if |head| + |rest| < WINDOW then |rest| else WINDOW - |head|];
    assert Headed(a, b, c, seen) == head + seen;
  }

  lemma PiecesOfHeaded(a: string, b: string, c: string, rest: string)
    requires Head(a, b, c)
    ensures Pieces(Headed(a, b, c, rest)) == [a] + ([b] + ([c] + Pieces(rest)))
  {
    PiecesAfterWord(a, b + " " + (c + " " + rest));
    PiecesAfterWord(b, c + " " + rest);
    PiecesAfterWord(c, rest);
  }

  lemma FirstPiecesOfHead(a: string, b: string, c: string, pieces: seq<string>)
    requires Head(a, b, c)
    ensures FirstPieces([a] + ([b] + ([c] + pieces)), 3) == a + (b + c)
  {
    FirstPiecesStep(a, [b] + ([c] + pieces), 3);
    FirstPiecesStep(b, [c] + pieces, 2);
    FirstPiecesStep(c, pieces, 1);
    assert c + "" == c;
  }

  /** Behind three words nothing of a plain log is signed. */
  lemma {:induction false} OnlyTheHeadIsSigned(a: string, b: string, c: string, rest: string)
    requires Head(a, b, c) && Plain(Headed(a, b, c, rest))
    ensures Fingerprint(Headed(a, b, c, rest)) == a + (b + c)
  {
    PlainFingerprint(Headed(a, b, c, rest));
    var seen := WindowOfHeaded(a, b, c, rest);
    PiecesOfHeaded(a, b, c, seen);
    FirstPiecesOfHead(a, b, c, Pieces(seen));
  }

  /** So two plain logs with one head have one signature, whatever the hash and however they go on. */
  lemma {:induction false} SameHeadSameSignature(hash: string -> nat, a: string, b: string, c: string,
                                                 rest: string, rest': string)
    requires Head(a, b, c) && Plain(Headed(a, b, c, rest)) && Plain(Headed(a, b, c, rest'))
    ensures SignatureOf(hash, Headed(a, b, c, rest)) == SignatureOf(hash, Headed(a, b, c, rest'))
  {
    OnlyTheHeadIsSigned(a, b, c, rest);
    OnlyTheHeadIsSigned(a, b, c, rest');
  }

  // ----- Two formats under one signature -----

  const ROUTER := "x y z firewall-kaggle"
  const FILTER := "x y z filterlog"

  const KAGGLE_ERROR := "Invalid Kaggle CSV line: "
  const PFSENSE_ERROR := "pfSense" + " filterlog has insufficient fields (found 1): "

  /** What the library does with the two logs: the classifier's answers, and the two extractors' on the second. */
  predicate TellsApart(lib: Library) {
    && lib.classify(ROUTER) == KaggleFirewall && lib.classify(FILTER) == PfSense
    && lib.extract(KaggleFirewall, FILTER) == Err(KAGGLE_ERROR + FILTER)
    && lib.extract(PfSense, FILTER) == Err(PFSENSE_ERROR + FILTER)
  }

  lemma LogsAreHeaded()
    ensures Headed("x", "y", "z", "firewall-kaggle") == ROUTER && Headed("x", "y", "z", "filterlog") == FILTER
  {
  }

  lemma LogsArePlain()
    ensures Plain(ROUTER) && Plain(FILTER)
  {
  }

  lemma LettersAreHead()
    ensures Head("x", "y", "z")
  {
    assert "x"[0] == 'x' && "y"[0] == 'y' && "z"[0] == 'z';
  }

  lemma {:induction false} OneSignature(hash: string -> nat)
    ensures SignatureOf(hash, ROUTER) == SignatureOf(hash, FILTER)
  {
    LogsAreHeaded();
    LogsArePlain();
    LettersAreHead();
    SameHeadSameSignature(hash, "x", "y", "z", "firewall-kaggle", "filterlog");
  }

  lemma FilterIsTidy()
    ensures Trim(FILTER) == FILTER && !IsHeader(FILTER)
  {
    TrimmedIsFixed(FILTER);
    assert FILTER[0] == 'x' && "Source Port"[0] == 'S' && "source port"[0] == 's';
  }

  lemma FilterIsUnmarked()
    ensures !Contains(FILTER, MARKER)
  {
    assert Without(FILTER, '%') && MARKER[0] == '%';
    NotContained(FILTER, MARKER, '%');
  }

  lemma FilterHasNoComma()
    ensures Without(FILTER, ',')
  {
  }

  lemma OneColumn(s: string)
    requires Without(s, ',')
    ensures |Columns(s)| == 1
  {
    FirstPiece(s, "", ',');
    assert s + "" == s;
  }

  lemma OneColumnRefused(s: string, clock: int)
    requires Trim(s) == s && !IsHeader(s) && !Contains(s, MARKER) && Without(s, ',')
    ensures ParseKaggle(s, clock) == Err(KAGGLE_ERROR + s)
  {
    OneColumn(s);
  }

  /** The modelled extractor does answer so. */
  lemma {:induction false} KaggleRefusesFilter(clock: int)
    ensures ParseKaggle(FILTER, clock) == Err(KAGGLE_ERROR + FILTER)
  {
    FilterIsTidy();
    FilterIsUnmarked();
    FilterHasNoComma();
    OneColumnRefused(FILTER, clock);
  }

  lemma MessagesDiffer()
    ensures KAGGLE_ERROR + FILTER != PFSENSE_ERROR + FILTER
  {
    assert KAGGLE_ERROR[0] == 'I' && PFSENSE_ERROR[0] == 'p';
    assert (KAGGLE_ERROR + FILTER)[0] == 'I' && (PFSENSE_ERROR + FILTER)[0] == 'p';
  }

  lemma FallbacksDiffer(lib: Library, raw: string, e: string, e': string, r: Readings)
    requires e != e'
    ensures Fallback(lib, raw, e, r) != Fallback(lib, raw, e', r)
  {
    assert map["parse_error" := e]["parse_error"] == e && map["parse_error" := e']["parse_error"] == e';
    assert map["parse_error" := e] != map[] && map["parse_error" := e'] != map[];
  }

  lemma EventsDiffer(lib: Library, r: Readings, r': Readings)
    requires TellsApart(lib)
    ensures LosslessWith(lib, FILTER, KaggleFirewall, r, r') != LosslessWith(lib, FILTER, PfSense, r, r')
  {
    MessagesDiffer();
    FallbacksDiffer(lib, FILTER, KAGGLE_ERROR + FILTER, PFSENSE_ERROR + FILTER, r');
  }

  /** After one such log is cached, the other one is parsed as something it is not. */
  lemma {:induction false} CachedParseDiffers(lib: Library, hash: string -> nat, n: nat, capacity: nat,
                                              r: Readings, r': Readings)
    requires ShardCount(n) && TellsApart(lib)
    requires lib.signature(ROUTER) == SignatureOf(hash, ROUTER) && lib.signature(FILTER) == SignatureOf(hash, FILTER)
    ensures ParseCachedLossless(lib, CachedRun(lib, n, capacity, [ROUTER]), FILTER, r, r')
         != ParseLossless(lib, FILTER, r, r')
    ensures !FormatsInterchangeable(lib)
  {
    OneSignature(hash);
    OneLogIsCached(lib, n, capacity, ROUTER);
    EventsDiffer(lib, r, r');
    assert LosslessWith(lib, FILTER, lib.classify(ROUTER), r, r') != ParseLossless(lib, FILTER, r, r');
  }

  // ----- What is signed of other logs -----

  lemma {:induction false} PlaceBehind(front: string, pattern: string, rest: string)
    requires pattern != "" && Without(front, pattern[0]) && pattern <= rest
    ensures Contains(front + rest, pattern) && PlaceOf(front + rest, pattern) == |front|
  {
    if front == "" {
      assert front + rest == rest;
    } else {
      assert (front + rest)[1..] == front[1..] + rest;
      assert (front + rest)[0] == front[0] != pattern[0];
      PlaceBehind(front[1..], pattern, rest);
    }
  }

  /** Of a log with an ASA tag nothing is signed but the sixteen characters of the tag, if they lie in the window. */
  lemma {:induction false} AsaTagIsSigned(hash: string -> nat, front: string, tag: string, rest: string)
    requires "%ASA-" <= tag && |tag| == 16 && Without(front, '%') && |front| + 16 <= WINDOW
    ensures SignatureOf(hash, front + tag + rest) == hash(tag)
  {
    var raw := front + tag + rest;
    var seen := rest[..if |raw| < WINDOW then |rest| else WINDOW - |front| - 16];
    assert Window(raw) == front + (tag + seen);
    assert "%ASA-"[0] == '%';
    PlaceBehind(front, "%ASA-", tag + seen);
    assert (front + (tag + seen))[|front|..|front| + 16] == tag;
  }

  predicate FortigateSeen(w: string) {
    Contains(w, "devname=") || Contains(w, "type=\"traffic\"") || Contains(w, "logid=")
  }

  predicate PfSenseSeen(w: string) {
    Contains(w, "filterlog[") || Contains(w, "filterlog:")
  }

  predicate SuricataSeen(w: string) {
    "{" <= w || Contains(w, "\"event_type\"")
  }

  predicate PaloAltoSeen(w: string) {
    Contains(w, ",TRAFFIC,") || Contains(w, ",THREAT,")
  }

  /** The vendor whose anchor the window shows first in the order of the source; 0 for none. */
  function AnchorOf(w: string): nat {
    if FortigateSeen(w) then 1 else if PfSenseSeen(w) then 2 else if SuricataSeen(w) then 3
    else if PaloAltoSeen(w) then 4 else 0
  }

  /** Logs with one vendor's anchor have one signature, and those of two vendors are hashed from different texts. */
  lemma {:induction false} AnchorIsSigned(hash: string -> nat, a: string, b: string)
    requires a != "" && b != "" && !Contains(Window(a), "%ASA-") && !Contains(Window(b), "%ASA-")
    requires AnchorOf(Window(a)) > 0 && AnchorOf(Window(b)) > 0
    ensures AnchorOf(Window(a)) == AnchorOf(Window(b)) ==> SignatureOf(hash, a) == SignatureOf(hash, b)
    ensures Fingerprint(a) == Fingerprint(b) <==> AnchorOf(Window(a)) == AnchorOf(Window(b))
  {
    assert "fortigate_traffic"[0] == 'f' && "suricata_eve_json"[0] == 's';
    assert "pfsense_filterlog"[1] == 'f' && "paloalto_panos_csv"[1] == 'a' && "pfsense_filterlog"[0] == 'p';
  }

  /** The empty log has signature 0. */
  lemma EmptyIsZero(hash: string -> nat)
    ensures SignatureOf(hash, "") == 0
  {
  }

  /** A number in front of a plain log that fits the window is not signed. */
  lemma {:induction false} NumberNotSigned(hash: string -> nat, number: string, rest: string)
    requires (forall i :: 0 <= i < |number| ==> '0' <= number[i] <= '9') && rest != ""
    requires Plain(number + " " + rest) && |number| + 1 + |rest| <= WINDOW
    ensures SignatureOf(hash, number + " " + rest) == SignatureOf(hash, rest)
  {
    var raw := number + " " + rest;
    assert forall i :: 0 <= i < |rest| ==> rest[i] == raw[|number| + 1 + i];
    PlainFingerprint(raw);
    PlainFingerprint(rest);
    assert Window(raw) == raw && Window(rest) == rest;
    PiecesAfterWord(number, rest);
    assert ([number] + Pieces(rest))[1..] == Pieces(rest);
  }
}
