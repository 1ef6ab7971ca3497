/** The string operations the parsers use: whitespace, trimming, splitting, searching. */
module Text {
  import opened Options

  /** The characters with the Unicode property White_Space. */
  predicate IsSpace(c: char) {
    var n := c as int;
    || 0x9 <= n <= 0xD || n == 0x20 || n == 0x85 || n == 0xA0 || n == 0x1680 || 0x2000 <= n <= 0x200A
    || n == 0x2028 || n == 0x2029 || n == 0x202F || n == 0x205F || n == 0x3000
  }

  predicate NoSpace(s: string) {
    forall i :: 0 <= i < |s| ==> !IsSpace(s[i])
  }

  predicate Without(s: string, c: char) {
    forall i :: 0 <= i < |s| ==> s[i] != c
  }

  // ----- Trimming -----

  function TrimStart(s: string): (t: string)
    ensures t != "" ==> !IsSpace(t[0])
  {
    if s != "" && IsSpace(s[0]) then TrimStart(s[1..]) else s
  }

  function TrimEnd(s: string): (t: string)
    ensures t <= s
    ensures t != "" ==> !IsSpace(t[|t| - 1])
  {
    if s != "" && IsSpace(s[|s| - 1]) then TrimEnd(s[..|s| - 1]) else s
  }

  function Trim(s: string): string {
    TrimEnd(TrimStart(s))
  }

  /** The text between two double quotes. */
  function Quoted(s: string): string {
    ['"'] + s + ['"']
  }

  /** `trim_matches(c)`: every `c` off both ends. */
  function TrimMatches(s: string, c: char): string
    decreases |s|
  {
    if s != "" && s[0] == c then TrimMatches(s[1..], c)
    else if s != "" && s[|s| - 1] == c then TrimMatches(s[..|s| - 1], c)
    else s
  }

  lemma TrimMatchesAbsent(s: string, c: char)
    requires Without(s, c)
    ensures TrimMatches(s, c) == s
  {
  }

  lemma {:induction false} TrimMatchesTail(s: string, c: char)
    ensures TrimMatches(s + [c], c) == TrimMatches(s, c)
    decreases |s|
  {
    var t := s + [c];
    if s == "" {
      assert t[1..] == s;
    } else if s[0] == c {
      assert t[1..] == s[1..] + [c];
      TrimMatchesTail(s[1..], c);
    } else {
      assert t[..|s|] == s;
    }
  }

  /** Trimming takes off the quotes put on, and what it would have taken off before. */
  lemma TrimMatchesQuoted(s: string, c: char)
    ensures TrimMatches([c] + s + [c], c) == TrimMatches(s, c)
  {
    assert ([c] + s + [c])[1..] == s + [c];
    TrimMatchesTail(s, c);
  }

  /** What is trimmed has no space at either end. */
  predicate Tidy(s: string) {
    s == "" || (!IsSpace(s[0]) && !IsSpace(s[|s| - 1]))
  }

  lemma TrimIsTidy(s: string)
    ensures Tidy(Trim(s))
  {
    assert Trim(s) <= TrimStart(s);
  }

  lemma TrimmedIsFixed(s: string)
    requires Tidy(s)
    ensures Trim(s) == s
  {
  }

  // ----- Splitting at whitespace -----

  /** The length of the first word of a string that does not begin with space. */
  function WordLength(s: string): (n: nat)
    ensures n <= |s|
    ensures forall i :: 0 <= i < n ==> !IsSpace(s[i])
    ensures n < |s| ==> IsSpace(s[n])
  {
    if s == "" || IsSpace(s[0]) then 0 else 1 + WordLength(s[1..])
  }

  /** `split_whitespace`. */
  function Words(s: string): seq<string>
    decreases |s|
  {
    if s == "" then []
    else if IsSpace(s[0]) then Words(s[1..])
    else [s[..WordLength(s)]] + Words(s[WordLength(s)..])
  }

  lemma {:induction false} WordLengthAcross(a: string, c: char, b: string)
    requires IsSpace(c)
    ensures WordLength(a + [c] + b) == WordLength(a)
  {
    var s := a + [c] + b;
    if a == "" || IsSpace(a[0]) {
    } else {
      assert s[1..] == a[1..] + [c] + b;
      WordLengthAcross(a[1..], c, b);
    }
  }

  lemma {:induction false} WordLengthAfter(front: string, s: string)
    requires NoSpace(front)
    ensures WordLength(front + s) == |front| + WordLength(s)
  {
    if front == "" {
      assert front + s == s;
    } else {
      assert (front + s)[1..] == front[1..] + s;
      WordLengthAfter(front[1..], s);
    }
  }

  lemma {:induction false} WordLengthTail(s: string, c: char)
    requires !IsSpace(c)
    ensures WordLength(s + [c]) == if WordLength(s) < |s| then WordLength(s) else |s| + 1
  {
    if s == "" {
    } else if !IsSpace(s[0]) {
      assert (s + [c])[1..] == s[1..] + [c];
      WordLengthTail(s[1..], c);
    }
  }

  /** The first word of a text that begins with one. */
  lemma FirstWord(s: string)
    requires s != "" && !IsSpace(s[0])
    ensures Words(s) == [s[..WordLength(s)]] + Words(s[WordLength(s)..])
  {
  }

  /** A word put in front of a text extends its first word. */
  lemma WordsAfter(front: string, s: string)
    requires front != "" && NoSpace(front)
    ensures Words(front + s) == [front + s[..WordLength(s)]] + Words(s[WordLength(s)..])
  {
    var n := WordLength(s);
    WordLengthAfter(front, s);
    assert (front + s)[..|front| + n] == front + s[..n] && (front + s)[|front| + n..] == s[n..];
    FirstWord(front + s);
  }

  /** Words do not reach across a space. */
  lemma {:induction false} WordsAcross(a: string, c: char, b: string)
    requires IsSpace(c)
    ensures Words(a + [c] + b) == Words(a) + Words(b)
    decreases |a|
  {
    var s := a + [c] + b;
    if a == "" {
      assert s[1..] == b;
    } else if IsSpace(a[0]) {
      assert s[1..] == a[1..] + [c] + b;
      WordsAcross(a[1..], c, b);
    } else {
      var n := WordLength(a);
      WordLengthAcross(a, c, b);
      assert s[..n] == a[..n];
      assert s[n..] == a[n..] + [c] + b;
      WordsAcross(a[n..], c, b);
      assert Words(s) == [a[..n]] + (Words(a[n..]) + Words(b));
    }
  }

  lemma {:induction false} WordsOfTrimStart(s: string)
    ensures Words(TrimStart(s)) == Words(s)
  {
    if s == "" || !IsSpace(s[0]) {
    } else {
      WordsOfTrimStart(s[1..]);
    }
  }

  lemma {:induction false} WordsOfTrimEnd(s: string)
    ensures Words(TrimEnd(s)) == Words(s)
  {
    if s == "" || !IsSpace(s[|s| - 1]) {
    } else {
      var t := s[..|s| - 1];
      WordsOfTrimEnd(t);
      WordsAcross(t, s[|s| - 1], "");
      assert t + [s[|s| - 1]] + "" == s;
    }
  }

  lemma WordsOfTrim(s: string)
    ensures Words(Trim(s)) == Words(s)
  {
    WordsOfTrimStart(s);
    WordsOfTrimEnd(TrimStart(s));
  }

  /** A character that is not in the text is in none of its words. */
  lemma {:induction false} WordsWithout(s: string, c: char)
    requires Without(s, c)
    ensures forall w :: w in Words(s) ==> Without(w, c)
    decreases |s|
  {
    if s == "" {
    } else {
      if IsSpace(s[0]) {
        WordsWithout(s[1..], c);
      } else {
        WordsWithout(s[WordLength(s)..], c);
      }
    }
  }

  // ----- Searching for a text -----

  /** `contains(pattern)`. */
  predicate Contains(s: string, pattern: string) {
    pattern <= s || (s != "" && Contains(s[1..], pattern))
  }

  lemma {:induction false} ContainsInMiddle(a: string, pattern: string, b: string)
    ensures Contains(a + pattern + b, pattern)
  {
    var s := a + pattern + b;
    if a == "" {
      assert pattern <= s;
    } else {
      assert s[1..] == a[1..] + pattern + b;
      ContainsInMiddle(a[1..], pattern, b);
    }
  }

  /** A text is contained exactly where a suffix begins with it. */
  lemma {:induction false} ContainsExact(s: string, pattern: string)
    ensures Contains(s, pattern) <==> exists i :: 0 <= i <= |s| && pattern <= s[i..]
  {
    if pattern <= s {
      assert s[0..] == s;
    } else if s == "" {
    } else {
      ContainsExact(s[1..], pattern);
      assert forall i :: 1 <= i <= |s| ==> s[i..] == s[1..][i - 1..];
      if i :| 0 <= i <= |s| && pattern <= s[i..] {
        assert i != 0 by { assert s[0..] == s; }
        assert pattern <= s[1..][i - 1..];
      }
      if i :| 0 <= i <= |s| - 1 && pattern <= s[1..][i..] {
        assert pattern <= s[i + 1..];
      }
    }
  }

  /** A text with a character the other lacks is not in it. */
  lemma {:induction false} NotContained(s: string, pattern: string, c: char)
    requires Without(s, c) && c in pattern
    ensures !Contains(s, pattern)
  {
    if s == "" {
    } else {
      NotContained(s[1..], pattern, c);
    }
  }

  // ----- Splitting at a separator -----

  /** `find(c)`. */
  function Find(s: string, c: char): (r: Option<nat>)
    ensures r.Some? ==> r.value < |s| && s[r.value] == c && Without(s[..r.value], c)
    ensures r.None? ==> Without(s, c)
  {
    if s == "" then None
    else if s[0] == c then Some(0)
    else
      match Find(s[1..], c)
      case None => None
      case Some(i) => assert s[..i + 1] == [s[0]] + s[1..][..i]; Some(i + 1)
  }

  lemma {:induction false} FindFirst(a: string, c: char, b: string)
    requires Without(a, c)
    ensures Find(a + [c] + b, c) == Some(|a|)
  {
    var s := a + [c] + b;
    if a == "" {
    } else {
      assert s[1..] == a[1..] + [c] + b;
      FindFirst(a[1..], c, b);
    }
  }

  /** `split(c)`: one piece more than there are separators. */
  function SplitOn(s: string, c: char): (pieces: seq<string>)
    ensures |pieces| > 0
  {
    if s == "" then [""]
    else
      var rest := SplitOn(s[1..], c);
      if s[0] == c then [""] + rest else [[s[0]] + rest[0]] + rest[1..]
  }

  function JoinedBy(pieces: seq<string>, c: char): string
    requires pieces != []
  {
    if |pieces| == 1 then pieces[0] else pieces[0] + [c] + JoinedBy(pieces[1..], c)
  }

  lemma {:induction false} FirstPiece(front: string, rest: string, c: char)
    requires Without(front, c)
    ensures SplitOn(front + rest, c) == [front + SplitOn(rest, c)[0]] + SplitOn(rest, c)[1..]
  {
    if front == "" {
      var pieces := SplitOn(rest, c);
      assert front + rest == rest && front + pieces[0] == pieces[0] && [pieces[0]] + pieces[1..] == pieces;
    } else {
      assert (front + rest)[1..] == front[1..] + rest;
      FirstPiece(front[1..], rest, c);
      assert [front[0]] + (front[1..] + SplitOn(rest, c)[0]) == front + SplitOn(rest, c)[0];
    }
  }

  /** Splitting undoes joining when the separator is in no piece. */
  lemma {:induction false} SplitOfJoined(pieces: seq<string>, c: char)
    requires pieces != [] && forall i :: 0 <= i < |pieces| ==> Without(pieces[i], c)
    ensures SplitOn(JoinedBy(pieces, c), c) == pieces
  {
    if |pieces| == 1 {
      FirstPiece(pieces[0], "", c);
      assert pieces[0] + "" == pieces[0];
    } else {
      var rest := [c] + JoinedBy(pieces[1..], c);
      assert rest[1..] == JoinedBy(pieces[1..], c);
      SplitOfJoined(pieces[1..], c);
      FirstPiece(pieces[0], rest, c);
      assert pieces[0] + "" == pieces[0];
      assert JoinedBy(pieces, c) == pieces[0] + rest;
    }
  }

  function TrimAll(pieces: seq<string>): (trimmed: seq<string>)
    ensures |trimmed| == |pieces|
  {
    seq(|pieces|, i requires 0 <= i < |pieces| => Trim(pieces[i]))
  }

  /** Space in front of the text is space in front of its first piece. */
  lemma {:induction false} ColumnsOfTrimStart(s: string, c: char)
    requires !IsSpace(c)
    ensures TrimAll(SplitOn(TrimStart(s), c)) == TrimAll(SplitOn(s, c))
  {
    if s == "" || !IsSpace(s[0]) {
    } else {
      ColumnsOfTrimStart(s[1..], c);
      var rest := SplitOn(s[1..], c);
      assert ([s[0]] + rest[0])[1..] == rest[0];
      assert TrimAll(SplitOn(s, c)) == TrimAll(rest);
    }
  }

  /** The pieces when one more character is added to the last of them. */
  function LastExtended(pieces: seq<string>, x: char): (extended: seq<string>)
    requires pieces != []
    ensures |extended| == |pieces|
  {
    pieces[..|pieces| - 1] + [pieces[|pieces| - 1] + [x]]
  }

  lemma ExtendAfterPrepend(c: char, rest: seq<string>, x: char)
    requires rest != []
    ensures LastExtended([""] + rest, x) == [""] + LastExtended(rest, x)
    ensures LastExtended([[c] + rest[0]] + rest[1..], x)
      == [[c] + LastExtended(rest, x)[0]] + LastExtended(rest, x)[1..]
  {
    assert ([c] + rest[0]) + [x] == [c] + (rest[0] + [x]);
  }

  lemma {:induction false} SplitOnLast(s: string, x: char, c: char)
    requires x != c
    ensures SplitOn(s + [x], c) == LastExtended(SplitOn(s, c), x)
  {
    if s == "" {
      assert (s + [x])[1..] == "" && [x] + "" == "" + [x];
    } else {
      assert (s + [x])[1..] == s[1..] + [x];
      SplitOnLast(s[1..], x, c);
      ExtendAfterPrepend(s[0], SplitOn(s[1..], c), x);
    }
  }

  lemma {:induction false} TrimAppend(s: string, x: char)
    requires IsSpace(x)
    ensures Trim(s + [x]) == Trim(s)
  {
    if s == "" {
      assert (s + [x])[1..] == "";
    } else if IsSpace(s[0]) {
      assert (s + [x])[1..] == s[1..] + [x];
      TrimAppend(s[1..], x);
    } else {
      assert (s + [x])[..|s|] == s;
    }
  }

  lemma LastTrimmed(pieces: seq<string>, last: string)
    requires pieces != [] && Trim(last) == Trim(pieces[|pieces| - 1])
    ensures TrimAll(pieces[..|pieces| - 1] + [last]) == TrimAll(pieces)
  {
  }

  lemma {:induction false} ColumnsOfTrimEnd(s: string, c: char)
    requires !IsSpace(c)
    ensures TrimAll(SplitOn(TrimEnd(s), c)) == TrimAll(SplitOn(s, c))
  {
    if s == "" || !IsSpace(s[|s| - 1]) {
    } else {
      var t, x := s[..|s| - 1], s[|s| - 1];
      ColumnsOfTrimEnd(t, c);
      assert s == t + [x];
      SplitOnLast(t, x, c);
      var pieces := SplitOn(t, c);
      TrimAppend(pieces[|pieces| - 1], x);
      LastTrimmed(pieces, pieces[|pieces| - 1] + [x]);
    }
  }

  /** Trimming the text first changes no trimmed column. */
  lemma ColumnsOfTrim(s: string, c: char)
    requires !IsSpace(c)
    ensures TrimAll(SplitOn(Trim(s), c)) == TrimAll(SplitOn(s, c))
  {
    ColumnsOfTrimStart(s, c);
    ColumnsOfTrimEnd(TrimStart(s), c);
  }
}
