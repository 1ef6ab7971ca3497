/** What the string operations do to any text: nothing but white space, marks or separators is taken away. */
module TextLaws {
  import opened Text

  /** The 25 characters with the Unicode property White_Space. */
  lemma WhiteSpaceListed(c: char)
    ensures IsSpace(c) <==> c as int in {0x9, 0xA, 0xB, 0xC, 0xD, 0x20, 0x85, 0xA0, 0x1680, 0x2000, 0x2001, 0x2002,
                                         0x2003, 0x2004, 0x2005, 0x2006, 0x2007, 0x2008, 0x2009, 0x200A, 0x2028,
                                         0x2029, 0x202F, 0x205F, 0x3000}
  {
  }

  predicate AllSpace(s: string) {
    forall i :: 0 <= i < |s| ==> IsSpace(s[i])
  }

  predicate AllOf(s: string, c: char) {
    forall i :: 0 <= i < |s| ==> s[i] == c
  }

  lemma {:induction false} TrimStartExact(s: string) returns (front: string)
    ensures s == front + TrimStart(s) && AllSpace(front)
  {
    front := "";
    if s != "" && IsSpace(s[0]) {
      var rest := TrimStartExact(s[1..]);
      front := [s[0]] + rest;
      assert s == [s[0]] + s[1..];
    }
  }

  lemma LastBehind(s: string, front: string, back: string)
    requires s != "" && s[..|s| - 1] == front + back
    ensures s == front + (back + [s[|s| - 1]])
  {
    assert s == s[..|s| - 1] + [s[|s| - 1]];
  }

  lemma {:induction false} TrimEndExact(s: string) returns (back: string)
    ensures s == TrimEnd(s) + back && AllSpace(back)
  {
    back := "";
    if s != "" && IsSpace(s[|s| - 1]) {
      var n := |s| - 1;
      var rest := TrimEndExact(s[..n]);
      back := rest + [s[n]];
      LastBehind(s, TrimEnd(s[..n]), rest);
    }
  }

  /** Trimming takes white space off both ends, all of it, and nothing else. */
  lemma {:induction false} TrimExact(s: string) returns (front: string, back: string)
    ensures s == front + Trim(s) + back && AllSpace(front) && AllSpace(back) && Tidy(Trim(s))
  {
    front := TrimStartExact(s);
    back := TrimEndExact(TrimStart(s));
    TrimIsTidy(s);
  }

  /** Trimming a mark takes it off both ends, every one of them, and nothing else. */
  lemma {:induction false} TrimMatchesExact(s: string, c: char) returns (front: string, back: string)
    ensures var t := TrimMatches(s, c);
      && s == front + t + back && AllOf(front, c) && AllOf(back, c)
      && (t != "" ==> t[0] != c && t[|t| - 1] != c)
    decreases |s|
  {
    front, back := "", "";
    if s != "" && s[0] == c {
      front, back := TrimMatchesExact(s[1..], c);
      front := [c] + front;
      assert s == [c] + s[1..];
    } else if s != "" && s[|s| - 1] == c {
      front, back := TrimMatchesExact(s[..|s| - 1], c);
      back := back + [c];
      assert s == s[..|s| - 1] + [c];
    }
  }

  lemma JoinedExtended(x: char, rest: seq<string>, c: char)
    requires rest != []
    ensures JoinedBy([[x] + rest[0]] + rest[1..], c) == [x] + JoinedBy(rest, c)
  {
    var pieces := [[x] + rest[0]] + rest[1..];
    assert pieces[1..] == rest[1..];
    if |rest| > 1 {
      assert ([x] + rest[0]) + [c] + JoinedBy(rest[1..], c) == [x] + (rest[0] + [c] + JoinedBy(rest[1..], c));
    }
  }

  /** Splitting loses nothing, and no piece holds the separator. */
  lemma {:induction false} SplitOnExact(s: string, c: char)
    ensures JoinedBy(SplitOn(s, c), c) == s
    ensures forall i :: 0 <= i < |SplitOn(s, c)| ==> Without(SplitOn(s, c)[i], c)
  {
    if s != "" {
      SplitOnExact(s[1..], c);
      var pieces, rest := SplitOn(s, c), SplitOn(s[1..], c);
      assert s == [s[0]] + s[1..];
      if s[0] == c {
        assert pieces[1..] == rest && "" + [c] + s[1..] == s;
      } else {
        JoinedExtended(s[0], rest, c);
      }
    }
  }

  /** What the words of a text spell, one after the other: its characters that are no white space. */
  function Solid(s: string): string {
    if s == "" then "" else (if IsSpace(s[0]) then "" else [s[0]]) + Solid(s[1..])
  }

  function Spelled(words: seq<string>): string {
    if words == [] then "" else words[0] + Spelled(words[1..])
  }

  lemma {:induction false} SolidAfterWord(word: string, rest: string)
    requires NoSpace(word)
    ensures Solid(word + rest) == word + Solid(rest)
  {
    if word == "" {
      assert word + rest == rest && "" + Solid(rest) == Solid(rest);
    } else {
      assert (word + rest)[1..] == word[1..] + rest;
      SolidAfterWord(word[1..], rest);
      assert word == [word[0]] + word[1..];
    }
  }

  /** The words are the text without its white space, none of them empty and none with white space in it. */
  lemma {:induction false} WordsExact(s: string)
    ensures Spelled(Words(s)) == Solid(s)
    ensures forall i :: 0 <= i < |Words(s)| ==> Words(s)[i] != "" && NoSpace(Words(s)[i])
    decreases |s|
  {
    if s == "" {
    } else if IsSpace(s[0]) {
      WordsExact(s[1..]);
    } else {
      var n := WordLength(s);
      WordsExact(s[n..]);
      SolidAfterWord(s[..n], s[n..]);
      assert s == s[..n] + s[n..];
      assert Words(s)[1..] == Words(s[n..]);
    }
  }
}
