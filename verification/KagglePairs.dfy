/** The syslog branch as pairs of a name and a value: of the pairs with one key the last one counts. */
module KagglePairs {
  import opened Kaggle
  import opened Options
  import opened Text

  datatype Pair = Pair(name: string, value: string)

  /** The pair a word is, if it is one. */
  function PairOf(word: string): seq<Pair> {
    match Find(word, '=')
    case None => []
    case Some(eq) => [Pair(word[..eq], TrimMatches(word[eq + 1..], '"'))]
  }

  function PairsOf(words: seq<string>): seq<Pair> {
    if words == [] then [] else PairOf(words[0]) + PairsOf(words[1..])
  }

  function PairsIn(text: string): seq<Pair> {
    PairsOf(Words(text))
  }

  /** The value of the last pair of a key. */
  function LastFor(pairs: seq<Pair>, k: Key): Option<string> {
    if pairs == [] then None
    else
      var last := pairs[|pairs| - 1];
      if KeyNamed(last.name) == Some(k) then Some(last.value) else LastFor(pairs[..|pairs| - 1], k)
  }

  /** The last values under names that are no key. */
  function Others(pairs: seq<Pair>): map<string, string> {
    if pairs == [] then map[]
    else
      var rest, last := Others(pairs[..|pairs| - 1]), pairs[|pairs| - 1];
      if KeyNamed(last.name).None? then rest[last.name := last.value] else rest
  }

  predicate OnlyKeys(pairs: seq<Pair>) {
    forall i :: 0 <= i < |pairs| ==> KeyNamed(pairs[i].name).Some?
  }

  function LastPort(pairs: seq<Pair>, k: Key): Option<nat> {
    match LastFor(pairs, k)
    case None => None
    case Some(v) => ParsePort(v)
  }

  function LastCount(pairs: seq<Pair>, k: Key): Option<nat> {
    match LastFor(pairs, k)
    case None => None
    case Some(v) => ParseCount(v)
  }

  function LastFields(pairs: seq<Pair>): Fields {
    Fields(LastPort(pairs, SrcPort), LastPort(pairs, DstPort), LastPort(pairs, NatSrcPort),
           LastPort(pairs, NatDstPort), LastFor(pairs, Action), LastCount(pairs, ByteCount),
           LastCount(pairs, SentBytes), LastCount(pairs, RcvdBytes), LastCount(pairs, Packets),
           LastCount(pairs, Elapsed), LastCount(pairs, PktsSent), LastCount(pairs, PktsRcvd), Others(pairs))
  }

  // ----- Pairs of texts put together -----

  lemma {:induction false} PairsAcross(a: seq<string>, b: seq<string>)
    ensures PairsOf(a + b) == PairsOf(a) + PairsOf(b)
  {
    if a == [] {
      assert a + b == b;
    } else {
      assert (a + b)[1..] == a[1..] + b;
      PairsAcross(a[1..], b);
    }
  }

  lemma OneMorePair(words: seq<string>, word: string)
    ensures PairsOf(words + [word]) == PairsOf(words) + PairOf(word)
  {
    PairsAcross(words, [word]);
    assert PairsOf([word]) == PairOf(word) + PairsOf([]);
  }

  lemma {:induction false} LastAcross(a: seq<Pair>, b: seq<Pair>, k: Key)
    ensures LastFor(a + b, k) == if LastFor(b, k).Some? then LastFor(b, k) else LastFor(a, k)
  {
    if b == [] {
      assert a + b == a;
    } else {
      assert (a + b)[..|a + b| - 1] == a + b[..|b| - 1];
      LastAcross(a, b[..|b| - 1], k);
    }
  }

  lemma {:induction false} OthersAcross(a: seq<Pair>, b: seq<Pair>)
    ensures Others(a + b) == Others(a) + Others(b)
  {
    if b == [] {
      assert a + b == a;
    } else {
      assert (a + b)[..|a + b| - 1] == a + b[..|b| - 1];
      OthersAcross(a, b[..|b| - 1]);
    }
  }

  lemma {:induction false} OthersAreNoKeys(pairs: seq<Pair>)
    ensures forall name :: name in Others(pairs) ==> KeyNamed(name).None?
  {
    if pairs != [] { OthersAreNoKeys(pairs[..|pairs| - 1]); }
  }

  lemma {:induction false} NoOthersExact(pairs: seq<Pair>)
    ensures Others(pairs) == map[] <==> OnlyKeys(pairs)
  {
    if pairs != [] {
      var last := pairs[|pairs| - 1];
      NoOthersExact(pairs[..|pairs| - 1]);
      if KeyNamed(last.name).None? { assert last.name in Others(pairs); }
    }
  }

  // ----- Many lists of pairs -----

  function Flat(parts: seq<seq<Pair>>): seq<Pair> {
    if parts == [] then [] else parts[0] + Flat(parts[1..])
  }

  lemma FlatFrom(parts: seq<seq<Pair>>, i: nat)
    requires i < |parts|
    ensures Flat(parts[i..]) == parts[i] + Flat(parts[i + 1..])
  {
    assert parts[i..][1..] == parts[i + 1..];
  }

  lemma {:induction false} FlatAcross(a: seq<seq<Pair>>, b: seq<seq<Pair>>)
    ensures Flat(a + b) == Flat(a) + Flat(b)
  {
    if a == [] {
      assert a + b == b;
    } else {
      assert (a + b)[1..] == a[1..] + b;
      FlatAcross(a[1..], b);
    }
  }

  lemma {:induction false} LastOfFlat(parts: seq<seq<Pair>>, parts': seq<seq<Pair>>, k: Key)
    requires |parts| == |parts'|
    requires forall i :: 0 <= i < |parts| ==> LastFor(parts[i], k) == LastFor(parts'[i], k)
    ensures LastFor(Flat(parts), k) == LastFor(Flat(parts'), k)
  {
    if parts != [] {
      LastOfFlat(parts[1..], parts'[1..], k);
      LastAcross(parts[0], Flat(parts[1..]), k);
      LastAcross(parts'[0], Flat(parts'[1..]), k);
    }
  }

  lemma {:induction false} OthersOfFlat(parts: seq<seq<Pair>>, parts': seq<seq<Pair>>)
    requires |parts| == |parts'|
    requires forall i :: 0 <= i < |parts| ==> Others(parts[i]) == Others(parts'[i])
    ensures Others(Flat(parts)) == Others(Flat(parts'))
  {
    if parts != [] {
      OthersOfFlat(parts[1..], parts'[1..]);
      OthersAcross(parts[0], Flat(parts[1..]));
      OthersAcross(parts'[0], Flat(parts'[1..]));
    }
  }

  // ----- What the branch stores -----


  lemma LastOfOneMore(pairs: seq<Pair>, p: Pair, k: Key)
    ensures LastFor(pairs + [p], k) == if KeyNamed(p.name) == Some(k) then Some(p.value) else LastFor(pairs, k)
  {
    assert (pairs + [p])[..|pairs|] == pairs;
  }

  lemma OthersOfOneMore(pairs: seq<Pair>, p: Pair)
    ensures Others(pairs + [p])
         == if KeyNamed(p.name).None? then Others(pairs)[p.name := p.value] else Others(pairs)
  {
    assert (pairs + [p])[..|pairs|] == pairs;
  }

  lemma OneKeyStored(before: seq<Pair>, after: seq<Pair>, k: Key, v: string)
    requires forall k' :: LastFor(after, k') == if k' == k then Some(v) else LastFor(before, k')
    requires Others(after) == Others(before)
    ensures LastFields(after) == Store(LastFields(before), k, v)
  {
  }

  lemma OtherStored(before: seq<Pair>, after: seq<Pair>)
    requires forall k :: LastFor(after, k) == LastFor(before, k)
    ensures LastFields(after) == LastFields(before).(unmapped := Others(after))
  {
  }

  /** What one more word does to the fields. */
  lemma PairAbsorbed(pairs: seq<Pair>, word: string)
    requires PairOf(word) != []
    ensures Absorb(LastFields(pairs), word) == LastFields(pairs + PairOf(word))
  {
    var p := PairOf(word)[0];
    var after := pairs + [p];
    forall k ensures LastFor(after, k) == if KeyNamed(p.name) == Some(k) then Some(p.value) else LastFor(pairs, k) {
      LastOfOneMore(pairs, p, k);
    }
    OthersOfOneMore(pairs, p);
    match KeyNamed(p.name)
    case Some(k) => OneKeyStored(pairs, after, k, p.value);
    case None => OtherStored(pairs, after);
  }

  /** Every field is the parse of the last pair of its key, and other names keep their last value. */
  lemma {:induction false} LastPairWins(words: seq<string>)
    ensures AbsorbAll(words) == LastFields(PairsOf(words))
  {
    if words == [] {
    } else {
      var before, word := words[..|words| - 1], words[|words| - 1];
      LastPairWins(before);
      assert before + [word] == words;
      OneMorePair(before, word);
      if PairOf(word) == [] {
        assert PairsOf(before) + [] == PairsOf(before);
      } else {
        PairAbsorbed(PairsOf(before), word);
      }
    }
  }
}
