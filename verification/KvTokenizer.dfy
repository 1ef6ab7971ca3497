/**
 The key-value tokenizer: a field that shrinks, and a scan for the closing quote that skips escapes. What
 counts as a letter or digit outside ASCII is an input.
 */
module KvTokenizer {
  import opened Options
  import opened Text

  const QUOTE := '"'
  const ESCAPE := '\\'
  const EQUALS := '='

  datatype Pair = Pair(key: string, value: string)

  /** What one call yields, and the text left; or a slice off a character boundary. */
  datatype Yield = Yield(item: Option<Pair>, rest: string) | Panic

  predicate IsAsciiAlphanumeric(c: char) {
    'a' <= c <= 'z' || 'A' <= c <= 'Z' || '0' <= c <= '9'
  }

  predicate OneByte(c: char) {
    c as int < 0x80
  }

  /** `is_alphanumeric`: known on ASCII, and never of a space. */
  type Alphabet = letter: char -> bool |
    forall c :: (OneByte(c) ==> letter(c) == IsAsciiAlphanumeric(c)) && (IsSpace(c) ==> !letter(c))
    witness IsAsciiAlphanumeric

  predicate IsWordChar(letter: Alphabet, c: char) {
    letter(c) || c == '_'
  }

  predicate IsSeparator(c: char) {
    IsSpace(c) || c == '|'
  }

  /** The part after the last space or bar. */
  function LastWord(s: string): string {
    if s == "" then ""
    else
      var c := s[|s| - 1];
      if IsSeparator(c) then "" else LastWord(s[..|s| - 1]) + [c]
  }

  /** The last space or bar is one byte long, so that the place behind it is a character boundary. */
  predicate WordOnBoundary(s: string) {
    if s == "" then true
    else
      var c := s[|s| - 1];
      if IsSeparator(c) then OneByte(c) else WordOnBoundary(s[..|s| - 1])
  }

  function DropJunk(letter: Alphabet, s: string): string {
    if s != "" && !IsWordChar(letter, s[0]) then DropJunk(letter, s[1..]) else s
  }

  /** The place of the closing quote: the first one that no backslash escapes. */
  function ClosingQuote(s: string, escaped: bool): (r: Option<nat>)
    ensures r.Some? ==> r.value < |s| && s[r.value] == QUOTE
  {
    if s == "" then None
    else if !escaped && s[0] == QUOTE then Some(0)
    else
      match ClosingQuote(s[1..], !escaped && s[0] == ESCAPE)
      case None => None
      case Some(i) => Some(i + 1)
  }

  function KeyOf(letter: Alphabet, rawKey: string): Option<string> {
    if WordOnBoundary(rawKey) then Some(DropJunk(letter, LastWord(rawKey))) else None
  }

  /** The value at the front of the text after the equals sign, and the text after the value. */
  function ValueOf(after: string): (r: (string, string))
    ensures |r.1| <= |after|
  {
    if after != "" && after[0] == QUOTE then
      var inner := after[1..];
      match ClosingQuote(inner, false)
      case Some(i) => (inner[..i], inner[i + 1..])
      case None => (inner, "")
    else
      var n := WordLength(after);
      (after[..n], after[n..])
  }

  function NextYield(letter: Alphabet, s: string): Yield {
    var t := TrimStart(s);
    match Find(t, EQUALS)
    case None => Yield(None, t)
    case Some(eq) =>
      var (value, rest) := ValueOf(t[eq + 1..]);
      match KeyOf(letter, t[..eq])
      case None => Panic
      case Some(key) => Yield(Some(Pair(key, value)), rest)
  }

  lemma {:induction false} TrimStartShrinks(s: string)
    ensures |TrimStart(s)| <= |s|
  {
    if s == "" || !IsSpace(s[0]) {
    } else {
      TrimStartShrinks(s[1..]);
    }
  }

  lemma {:induction false} TrimStartWithout(s: string, c: char)
    requires Without(s, c)
    ensures Without(TrimStart(s), c)
  {
    if s == "" || !IsSpace(s[0]) {
    } else {
      TrimStartWithout(s[1..], c);
    }
  }

  /** Every item takes something off the text, and the end leaves no text with a pair in it. */
  lemma NextShrinks(letter: Alphabet, s: string)
    ensures match NextYield(letter, s)
      case Panic => !Without(s, EQUALS)
      case Yield(item, rest) =>
        && |rest| <= |s|
        && (item.Some? ==> |rest| < |s|)
        && (item.None? ==> Without(rest, EQUALS))
  {
    TrimStartShrinks(s);
    if Without(s, EQUALS) { TrimStartWithout(s, EQUALS); }
  }

  /** The scan for the closing quote, one byte at a time with an escape flag. */
  method ScanForQuote(inner: string) returns (end: Option<nat>)
    ensures end == ClosingQuote(inner, false)
  {
    end := None;
    var escaped := false;
    for i := 0 to |inner|
      invariant ClosingQuote(inner, false) ==
        match ClosingQuote(inner[i..], escaped)
        case None => None
        case Some(j) => Some(i + j)
    {
      assert inner[i..][1..] == inner[i + 1..];
      if escaped {
        escaped := false;
      } else if inner[i] == ESCAPE {
        escaped := true;
      } else if inner[i] == QUOTE {
        return Some(i);
      }
    }
  }

  class Tokenizer {
    const letter: Alphabet
    var s: string

    constructor (letter: Alphabet, input: string)
      ensures this.letter == letter && s == Trim(input)
    {
      this.letter, s := letter, Trim(input);
    }

    method Next() returns (item: Option<Pair>, panic: bool)
      modifies this
      ensures (if panic then Panic else Yield(item, s)) == NextYield(letter, old(s))
      ensures item.Some? && !panic ==> |s| < |old(s)|
    {
      NextShrinks(letter, s);
      var t := TrimStart(s);
      s := t;
      if t == "" {
        return None, false;
      }
      var found := Find(t, EQUALS);
      if found.None? {
        return None, false;
      }
      var key, after := KeyOf(letter, t[..found.value]), t[found.value + 1..];
      assert NextYield(letter, old(s)) == if key.None? then Panic
                                          else Yield(Some(Pair(key.value, ValueOf(after).0)), ValueOf(after).1);
      if key.None? {
        return None, true;
      }
      panic := false;
      if after != "" && after[0] == QUOTE {
        var inner := after[1..];
        var end := ScanForQuote(inner);
        if end.Some? {
          item, s := Some(Pair(key.value, inner[..end.value])), inner[end.value + 1..];
        } else {
          item, s := Some(Pair(key.value, inner)), "";
        }
      } else {
        var n := WordLength(after);
        item, s := Some(Pair(key.value, after[..n])), after[n..];
      }
    }
  }

  function Before(done: seq<Pair>, others: Option<seq<Pair>>): Option<seq<Pair>> {
    match others
    case None => None
    case Some(pairs) => Some(done + pairs)
  }

  lemma BeforeNothing(others: Option<seq<Pair>>)
    ensures Before([], others) == others
  {
    if others.Some? { assert [] + others.value == others.value; }
  }

  /** All items from here to the end, if the end is reached. */
  function AllPairs(letter: Alphabet, s: string): Option<seq<Pair>>
    decreases |s|
  {
    NextShrinks(letter, s);
    match NextYield(letter, s)
    case Panic => None
    case Yield(None, _) => Some([])
    case Yield(Some(pair), rest) => Before([pair], AllPairs(letter, rest))
  }

  lemma AllPairsStep(letter: Alphabet, s: string, done: seq<Pair>)
    ensures match NextYield(letter, s)
      case Panic => Before(done, AllPairs(letter, s)) == None
      case Yield(None, _) => Before(done, AllPairs(letter, s)) == Some(done)
      case Yield(Some(pair), rest) =>
        Before(done, AllPairs(letter, s)) == Before(done + [pair], AllPairs(letter, rest))
  {
    match NextYield(letter, s)
    case Panic =>
    case Yield(None, _) =>
      assert done + [] == done;
    case Yield(Some(pair), rest) =>
      NextShrinks(letter, s);
      if AllPairs(letter, rest).Some? {
        assert done + ([pair] + AllPairs(letter, rest).value) == (done + [pair]) + AllPairs(letter, rest).value;
      }
  }

  /** `None` for a run that panics. */
  method Tokenize(letter: Alphabet, input: string) returns (pairs: Option<seq<Pair>>)
    ensures pairs == AllPairs(letter, Trim(input))
  {
    var tokenizer := new Tokenizer(letter, input);
    var done := [];
    BeforeNothing(AllPairs(letter, Trim(input)));
    while true
      invariant tokenizer.letter == letter
      invariant Before(done, AllPairs(letter, tokenizer.s)) == AllPairs(letter, Trim(input))
      decreases |tokenizer.s|
    {
      AllPairsStep(letter, tokenizer.s, done);
      var item, panic := tokenizer.Next();
      if panic {
        return None;
      }
      if item.None? {
        return Some(done);
      }
      done := done + [item.value];
    }
  }

  // ----- No slice off a boundary -----

  predicate OneByteSpaces(s: string) {
    forall i :: 0 <= i < |s| && IsSpace(s[i]) ==> OneByte(s[i])
  }

  lemma {:induction false} TrimStartOneByte(s: string)
    requires OneByteSpaces(s)
    ensures OneByteSpaces(TrimStart(s))
  {
    if s == "" || !IsSpace(s[0]) {
    } else {
      TrimStartOneByte(s[1..]);
    }
  }

  lemma {:induction false} WordStartsOnBoundary(s: string)
    requires OneByteSpaces(s)
    ensures WordOnBoundary(s)
  {
    if s == "" || IsSeparator(s[|s| - 1]) {
    } else {
      WordStartsOnBoundary(s[..|s| - 1]);
    }
  }

  lemma RestOneByte(after: string)
    requires OneByteSpaces(after)
    ensures OneByteSpaces(ValueOf(after).1)
  {
  }

  /** A text whose white space is all of one byte is read to its end. */
  lemma {:induction false} NoPanic(letter: Alphabet, s: string)
    requires OneByteSpaces(s)
    ensures AllPairs(letter, s).Some?
    decreases |s|
  {
    NextShrinks(letter, s);
    TrimStartOneByte(s);
    var t := TrimStart(s);
    match Find(t, EQUALS)
    case None =>
    case Some(eq) =>
      WordStartsOnBoundary(t[..eq]);
      RestOneByte(t[eq + 1..]);
      NoPanic(letter, NextYield(letter, s).rest);
  }

  // ----- Round trip -----

  function PrintPair(p: Pair): string {
    p.key + [EQUALS, QUOTE] + p.value + [QUOTE]
  }

  function PrintPairs(pairs: seq<Pair>): string {
    if pairs == [] then ""
    else if |pairs| == 1 then PrintPair(pairs[0])
    else PrintPair(pairs[0]) + " " + PrintPairs(pairs[1..])
  }

  predicate WordKey(letter: Alphabet, key: string) {
    forall i :: 0 <= i < |key| ==> letter(key[i]) || key[i] == '_'
  }

  /** Where a scan of the text stands: `None` once it meets an unescaped quote. */
  function ScanState(v: string, escaped: bool): Option<bool> {
    if v == "" then Some(escaped)
    else if !escaped && v[0] == QUOTE then None
    else ScanState(v[1..], !escaped && v[0] == ESCAPE)
  }

  /** A value whose quotes are all escaped and whose last backslash is not left open. */
  predicate EscapedValue(v: string) {
    ScanState(v, false) == Some(false)
  }

  lemma {:induction false} ClosingQuoteAfter(v: string, escaped: bool, tail: string)
    requires ScanState(v, escaped) == Some(false)
    ensures ClosingQuote(v + [QUOTE] + tail, escaped) == Some(|v|)
  {
    var s := v + [QUOTE] + tail;
    if v == "" {
    } else {
      assert s[1..] == v[1..] + [QUOTE] + tail;
      ClosingQuoteAfter(v[1..], !escaped && v[0] == ESCAPE, tail);
    }
  }

  lemma {:induction false} LastWordOfWord(letter: Alphabet, key: string)
    requires WordKey(letter, key)
    ensures LastWord(key) == key && WordOnBoundary(key)
  {
    if key == "" {
    } else {
      LastWordOfWord(letter, key[..|key| - 1]);
    }
  }

  /** A quoted value is read verbatim, escapes and all. */
  lemma ValueReadsPrinted(v: string, tail: string)
    requires EscapedValue(v)
    ensures ValueOf([QUOTE] + v + [QUOTE] + tail) == (v, tail)
  {
    var after := [QUOTE] + v + [QUOTE] + tail;
    var inner := after[1..];
    assert inner == v + [QUOTE] + tail;
    ClosingQuoteAfter(v, false, tail);
    assert inner[..|v|] == v && inner[|v| + 1..] == tail;
  }

  /** A value with a bare quote closes early; one that ends in an open escape takes in the closing quote. */
  lemma {:induction false} ClosingQuoteElsewhere(v: string, escaped: bool, tail: string)
    requires ScanState(v, escaped) != Some(false)
    ensures ClosingQuote(v + [QUOTE] + tail, escaped) != Some(|v|)
    ensures ScanState(v, escaped) == None ==>
      ClosingQuote(v + [QUOTE] + tail, escaped).Some? && ClosingQuote(v + [QUOTE] + tail, escaped).value < |v|
  {
    var s := v + [QUOTE] + tail;
    if v == "" || (!escaped && v[0] == QUOTE) {
    } else {
      assert s[1..] == v[1..] + [QUOTE] + tail;
      ClosingQuoteElsewhere(v[1..], !escaped && v[0] == ESCAPE, tail);
    }
  }

  /** Exactly the escaped values survive being printed between quotes, whatever follows them. */
  lemma ValueSurvives(v: string, tail: string)
    ensures ValueOf([QUOTE] + v + [QUOTE] + tail).0 == v <==> EscapedValue(v)
  {
    if EscapedValue(v) {
      ValueReadsPrinted(v, tail);
    } else {
      var after := [QUOTE] + v + [QUOTE] + tail;
      assert after[1..] == v + [QUOTE] + tail;
      ClosingQuoteElsewhere(v, false, tail);
    }
  }

  lemma {:induction false} WordOfAllText(v: string)
    requires NoSpace(v)
    ensures WordLength(v) == |v|
  {
    if v == "" {
    } else {
      WordOfAllText(v[1..]);
    }
  }

  /** A value without quotes ends at the first space. */
  lemma UnquotedValue(v: string, space: char, tail: string)
    requires NoSpace(v) && (v != "" ==> v[0] != QUOTE) && IsSpace(space)
    ensures ValueOf(v + [space] + tail) == (v, [space] + tail)
  {
    var after := v + [space] + tail;
    WordLengthAcross(v, space, tail);
    WordOfAllText(v);
    assert after[0] != QUOTE;
    assert after[..|v|] == v && after[|v|..] == [space] + tail;
  }

  /** The key is the word right before the equals sign, whatever stands before the last space or bar. */
  lemma {:induction false} LastWordAfter(letter: Alphabet, before: string, separator: char, key: string)
    requires WordKey(letter, key) && (IsSpace(separator) || separator == '|')
    ensures var s := before + [separator] + key; LastWord(s) == key && (WordOnBoundary(s) <==> OneByte(separator))
  {
    var s := before + [separator] + key;
    if key == "" {
      assert s[|s| - 1] == separator;
    } else {
      assert s[..|s| - 1] == before + [separator] + key[..|key| - 1];
      LastWordAfter(letter, before, separator, key[..|key| - 1]);
    }
  }

  lemma KeyAfterSeparator(letter: Alphabet, before: string, separator: char, key: string)
    requires WordKey(letter, key) && (IsSpace(separator) || separator == '|')
    ensures KeyOf(letter, before + [separator] + key) == if OneByte(separator) then Some(key) else None
  {
    LastWordAfter(letter, before, separator, key);
  }

  lemma KeyInFront(key: string, after: string)
    ensures var s := key + [EQUALS] + after; s[..|key|] == key && s[|key| + 1..] == after
  {
  }

  lemma KeyReadsPrinted(letter: Alphabet, key: string, after: string)
    requires WordKey(letter, key)
    ensures var s := key + [EQUALS] + after;
      TrimStart(s) == s && Find(s, EQUALS) == Some(|key|) && s[..|key|] == key && s[|key| + 1..] == after
    ensures KeyOf(letter, key) == Some(key)
  {
    FindFirst(key, EQUALS, after);
    LastWordOfWord(letter, key);
    KeyInFront(key, after);
  }

  /** A printed pair is read back, its value verbatim, and the text after it is what is left. */
  lemma NextReadsPrinted(letter: Alphabet, p: Pair, tail: string)
    requires WordKey(letter, p.key) && EscapedValue(p.value)
    ensures NextYield(letter, PrintPair(p) + tail) == Yield(Some(p), tail)
  {
    var after := [QUOTE] + p.value + [QUOTE] + tail;
    assert PrintPair(p) + tail == p.key + [EQUALS] + after;
    KeyReadsPrinted(letter, p.key, after);
    ValueReadsPrinted(p.value, tail);
  }

  lemma NextSkipsSpace(letter: Alphabet, s: string)
    ensures NextYield(letter, " " + s) == NextYield(letter, s)
  {
    assert (" " + s)[1..] == s;
  }

  /** A printed pair in front of a text is one more item in front of the text's. */
  lemma PairReadBack(letter: Alphabet, p: Pair, tail: string, others: seq<Pair>)
    requires WordKey(letter, p.key) && EscapedValue(p.value) && AllPairs(letter, tail) == Some(others)
    ensures AllPairs(letter, PrintPair(p) + tail) == Some([p] + others)
  {
    NextReadsPrinted(letter, p, tail);
  }

  lemma AllPairsSkipsSpace(letter: Alphabet, s: string)
    ensures AllPairs(letter, " " + s) == AllPairs(letter, s)
  {
    NextSkipsSpace(letter, s);
  }

  lemma SpaceBetween(front: string, s: string)
    ensures front + (" " + s) == front + " " + s
  {
  }

  lemma PairReadBackAhead(letter: Alphabet, p: Pair, s: string, others: seq<Pair>)
    requires WordKey(letter, p.key) && EscapedValue(p.value) && AllPairs(letter, s) == Some(others)
    ensures AllPairs(letter, PrintPair(p) + " " + s) == Some([p] + others)
  {
    AllPairsSkipsSpace(letter, s);
    PairReadBack(letter, p, " " + s, others);
    SpaceBetween(PrintPair(p), s);
  }

  lemma PrintedAlone(pairs: seq<Pair>)
    requires |pairs| == 1
    ensures PrintPair(pairs[0]) + "" == PrintPairs(pairs) && [pairs[0]] + [] == pairs
  {
  }

  lemma PrintedAhead(pairs: seq<Pair>)
    requires |pairs| > 1
    ensures PrintPair(pairs[0]) + " " + PrintPairs(pairs[1..]) == PrintPairs(pairs) && [pairs[0]] + pairs[1..] == pairs
  {
  }

  lemma {:induction false} PrintedPairsReadBack(letter: Alphabet, pairs: seq<Pair>)
    requires forall i :: 0 <= i < |pairs| ==> WordKey(letter, pairs[i].key) && EscapedValue(pairs[i].value)
    ensures AllPairs(letter, PrintPairs(pairs)) == Some(pairs)
  {
    if pairs == [] {
    } else if |pairs| == 1 {
      PairReadBack(letter, pairs[0], "", []);
      PrintedAlone(pairs);
    } else {
      PrintedPairsReadBack(letter, pairs[1..]);
      PairReadBackAhead(letter, pairs[0], PrintPairs(pairs[1..]), pairs[1..]);
      PrintedAhead(pairs);
    }
  }

  lemma PrintedPairEnds(letter: Alphabet, p: Pair)
    requires WordKey(letter, p.key)
    ensures var s := PrintPair(p); s != "" && !IsSpace(s[0]) && s[|s| - 1] == QUOTE
  {
  }

  lemma {:induction false} PrintedPairsEnd(letter: Alphabet, pairs: seq<Pair>)
    requires pairs != [] && forall i :: 0 <= i < |pairs| ==> WordKey(letter, pairs[i].key)
    ensures var s := PrintPairs(pairs); s != "" && !IsSpace(s[0]) && s[|s| - 1] == QUOTE
  {
    PrintedPairEnds(letter, pairs[0]);
    if |pairs| == 1 {
    } else {
      PrintedPairsEnd(letter, pairs[1..]);
    }
  }

  /** The trim the tokenizer starts with takes nothing off what was printed. */
  lemma PrintedPairsTrimmed(letter: Alphabet, pairs: seq<Pair>)
    requires forall i :: 0 <= i < |pairs| ==> WordKey(letter, pairs[i].key)
    ensures Trim(PrintPairs(pairs)) == PrintPairs(pairs)
  {
    if pairs != [] { PrintedPairsEnd(letter, pairs); }
    TrimmedIsFixed(PrintPairs(pairs));
  }

  /** Tokenizing, its first trim included, undoes printing, for every list of word keys and escaped values. */
  lemma {:induction false} KvRoundTrip(letter: Alphabet, pairs: seq<Pair>)
    requires forall i :: 0 <= i < |pairs| ==> WordKey(letter, pairs[i].key) && EscapedValue(pairs[i].value)
    ensures AllPairs(letter, Trim(PrintPairs(pairs))) == Some(pairs)
  {
    PrintedPairsTrimmed(letter, pairs);
    PrintedPairsReadBack(letter, pairs);
  }

  // ----- Odd keys and open values -----

  lemma {:induction false} JunkDropped(letter: Alphabet, junk: string, key: string)
    requires forall i :: 0 <= i < |junk| ==> !IsWordChar(letter, junk[i])
    requires key == "" || IsWordChar(letter, key[0])
    ensures DropJunk(letter, junk + key) == key
  {
    if junk == "" {
      assert junk + key == key;
    } else {
      assert (junk + key)[1..] == junk[1..] + key;
      JunkDropped(letter, junk[1..], key);
    }
  }

  lemma {:induction false} WordWithJunk(s: string)
    requires forall i :: 0 <= i < |s| ==> !IsSpace(s[i]) && s[i] != '|'
    ensures LastWord(s) == s && WordOnBoundary(s)
  {
    if s != "" { WordWithJunk(s[..|s| - 1]); }
  }

  /** Marks in front of a key that are no word characters do not belong to it. */
  lemma {:induction false} KeyAfterJunk(letter: Alphabet, junk: string, key: string)
    requires forall i :: 0 <= i < |junk| ==> !letter(junk[i]) && junk[i] != '_' && !IsSpace(junk[i]) && junk[i] != '|'
    requires WordKey(letter, key)
    ensures KeyOf(letter, junk + key) == Some(key)
  {
    WordWithJunk(junk + key);
    JunkDropped(letter, junk, key);
  }

  lemma {:induction false} NoClosingQuote(v: string, escaped: bool)
    ensures ClosingQuote(v, escaped).None? <==> ScanState(v, escaped).Some?
  {
    if v == "" || (!escaped && v[0] == QUOTE) {
    } else {
      NoClosingQuote(v[1..], !escaped && v[0] == ESCAPE);
    }
  }

  /** A value whose quotes are never closed is the rest of the text. */
  lemma {:induction false} OpenValue(v: string)
    requires ScanState(v, false).Some?
    ensures ValueOf([QUOTE] + v) == (v, "")
  {
    NoClosingQuote(v, false);
    assert ([QUOTE] + v)[1..] == v;
  }
}
