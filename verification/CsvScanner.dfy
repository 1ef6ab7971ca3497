/** The quote-aware CSV splitter: one pass with a quote flag. Quotes and commas are single bytes. */
module CsvScanner {
  import opened Text

  const QUOTE := '"'
  const COMMA := ','

  function Clean(field: string): string {
    Trim(TrimMatches(field, QUOTE))
  }

  function CleanAll(fields: seq<string>): (cleaned: seq<string>)
    ensures |cleaned| == |fields|
  {
    seq(|fields|, i requires 0 <= i < |fields| => Clean(fields[i]))
  }

  /** The raw fields of the text from a place where `inQuotes` tells the state. */
  function RawFields(s: string, inQuotes: bool): (fields: seq<string>)
    ensures |fields| > 0
  {
    if s == "" then [""]
    else
      var rest := RawFields(s[1..], if s[0] == QUOTE then !inQuotes else inQuotes);
      if s[0] == COMMA && !inQuotes then [""] + rest else [[s[0]] + rest[0]] + rest[1..]
  }

  function CommasOutside(s: string, inQuotes: bool): nat {
    if s == "" then 0
    else
      (if s[0] == COMMA && !inQuotes then 1 else 0)
      + CommasOutside(s[1..], if s[0] == QUOTE then !inQuotes else inQuotes)
  }

  /** One field more than there are commas outside quotes, and nothing lost between them. */
  lemma {:induction false} RawFieldsPartition(s: string, inQuotes: bool)
    ensures |RawFields(s, inQuotes)| == 1 + CommasOutside(s, inQuotes)
    ensures JoinedBy(RawFields(s, inQuotes), COMMA) == s
  {
    if s == "" {
    } else {
      var flag := if s[0] == QUOTE then !inQuotes else inQuotes;
      var rest, fields := RawFields(s[1..], flag), RawFields(s, inQuotes);
      RawFieldsPartition(s[1..], flag);
      assert [s[0]] + s[1..] == s;
      if s[0] == COMMA && !inQuotes {
        assert fields[1..] == rest;
        assert "" + [COMMA] + s[1..] == s;
      } else {
        assert fields[1..] == rest[1..];
        if |rest| > 1 {
          assert ([s[0]] + rest[0]) + [COMMA] + JoinedBy(rest[1..], COMMA)
              == [s[0]] + (rest[0] + [COMMA] + JoinedBy(rest[1..], COMMA));
        }
      }
    }
  }

  /** What is still to come, with the field under way put in front. */
  function Pending(open: string, rest: seq<string>): seq<string>
    requires rest != []
  {
    [open + rest[0]] + rest[1..]
  }

  lemma ScanStep(open: string, s: string, inQuotes: bool)
    requires s != ""
    ensures var flag := if s[0] == QUOTE then !inQuotes else inQuotes;
      Pending(open, RawFields(s, inQuotes)) ==
      if s[0] == COMMA && !inQuotes then [open] + Pending("", RawFields(s[1..], flag))
      else Pending(open + [s[0]], RawFields(s[1..], flag))
  {
    var flag := if s[0] == QUOTE then !inQuotes else inQuotes;
    var rest := RawFields(s[1..], flag);
    if s[0] == COMMA && !inQuotes {
      assert open + "" == open && "" + rest[0] == rest[0];
      assert [rest[0]] + rest[1..] == rest;
    } else {
      assert open + ([s[0]] + rest[0]) == (open + [s[0]]) + rest[0];
    }
  }

  lemma CleanAllAppend(a: seq<string>, b: seq<string>)
    ensures CleanAll(a + b) == CleanAll(a) + CleanAll(b)
  {
  }

  /** The fields still to be cleaned when the field under way begins at `start` and `i` is next to be read. */
  function ToCome(input: string, start: nat, i: nat, inQuotes: bool): seq<string>
    requires start <= i <= |input|
  {
    CleanAll(Pending(input[start..i], RawFields(input[i..], inQuotes)))
  }

  lemma ToComeAtStart(input: string)
    ensures ToCome(input, 0, 0, false) == CleanAll(RawFields(input, false))
  {
    var all := RawFields(input, false);
    assert input[0..] == input && input[0..0] + all[0] == all[0];
    assert [all[0]] + all[1..] == all;
  }

  lemma ToComeAtEnd(input: string, start: nat, inQuotes: bool)
    requires start <= |input|
    ensures ToCome(input, start, |input|, inQuotes) == [Clean(input[start..])]
  {
    assert input[start..|input|] + "" == input[start..];
    assert Pending(input[start..|input|], [""]) == [input[start..]];
  }

  lemma ToComeAtComma(input: string, start: nat, i: nat)
    requires start <= i < |input| && input[i] == COMMA
    ensures ToCome(input, start, i, false) == [Clean(input[start..i])] + ToCome(input, i + 1, i + 1, false)
  {
    ScanStep(input[start..i], input[i..], false);
    assert input[i..][1..] == input[i + 1..];
    assert input[i + 1..i + 1] == "";
    CleanAllAppend([input[start..i]], Pending("", RawFields(input[i + 1..], false)));
  }

  lemma NextRead(input: string, start: nat, i: nat)
    requires start <= i < |input|
    ensures input[i..] != "" && input[i..][0] == input[i] && input[i..][1..] == input[i + 1..]
    ensures input[start..i] + [input[i]] == input[start..i + 1]
  {
  }

  lemma ToComeInField(input: string, start: nat, i: nat, inQuotes: bool)
    requires start <= i < |input| && !(input[i] == COMMA && !inQuotes)
    ensures ToCome(input, start, i, inQuotes)
      == ToCome(input, start, i + 1, if input[i] == QUOTE then !inQuotes else inQuotes)
  {
    NextRead(input, start, i);
    ScanStep(input[start..i], input[i..], inQuotes);
  }

  lemma OneMoreField(fields: seq<string>, x: string, rest: seq<string>)
    ensures fields + ([x] + rest) == (fields + [x]) + rest
  {
  }

  /** The fields found so far and those to come are all the fields. */
  predicate Progress(input: string, fields: seq<string>, start: nat, i: nat, inQuotes: bool)
    requires start <= i <= |input|
  {
    CleanAll(RawFields(input, false)) == fields + ToCome(input, start, i, inQuotes)
  }

  lemma ProgressAtComma(input: string, fields: seq<string>, start: nat, i: nat)
    requires start <= i < |input| && input[i] == COMMA && Progress(input, fields, start, i, false)
    ensures Progress(input, fields + [Clean(input[start..i])], i + 1, i + 1, false)
  {
    ToComeAtComma(input, start, i);
    OneMoreField(fields, Clean(input[start..i]), ToCome(input, i + 1, i + 1, false));
  }

  lemma ProgressInField(input: string, fields: seq<string>, start: nat, i: nat, inQuotes: bool)
    requires start <= i < |input| && !(input[i] == COMMA && !inQuotes) && Progress(input, fields, start, i, inQuotes)
    ensures Progress(input, fields, start, i + 1, if input[i] == QUOTE then !inQuotes else inQuotes)
  {
    ToComeInField(input, start, i, inQuotes);
  }

  lemma ProgressStarts(input: string)
    ensures Progress(input, [], 0, 0, false)
  {
    ToComeAtStart(input);
  }

  lemma ProgressEnds(input: string, fields: seq<string>, start: nat, inQuotes: bool)
    requires start <= |input| && Progress(input, fields, start, |input|, inQuotes)
    ensures fields + [Clean(input[start..])] == CleanAll(RawFields(input, false))
  {
    ToComeAtEnd(input, start, inQuotes);
  }

  method SplitCsv(input: string) returns (fields: seq<string>)
    ensures fields == CleanAll(RawFields(input, false))
    ensures |fields| == 1 + CommasOutside(input, false)
  {
    fields := [];
    var inQuotes, start, i := false, 0, 0;
    ProgressStarts(input);
    while i < |input|
      invariant 0 <= start <= i <= |input|
      invariant Progress(input, fields, start, i, inQuotes)
    {
      if input[i] == QUOTE {
        ProgressInField(input, fields, start, i, inQuotes);
        inQuotes := !inQuotes;
      } else if input[i] == COMMA && !inQuotes {
        ProgressAtComma(input, fields, start, i);
        fields := fields + [Clean(input[start..i])];
        start := i + 1;
      } else {
        ProgressInField(input, fields, start, i, inQuotes);
      }
      i := i + 1;
    }
    ProgressEnds(input, fields, start, inQuotes);
    fields := fields + [Clean(input[start..])];
    RawFieldsPartition(input, false);
  }

  // ----- Round trip -----

  /** The fields quoted and joined by commas. */
  function PrintCsv(fields: seq<string>): string
    requires fields != []
  {
    if |fields| == 1 then Quoted(fields[0]) else Quoted(fields[0]) + [COMMA] + PrintCsv(fields[1..])
  }

  /** A field that survives: trimmed and without quotes. Commas and inner space are welcome. */
  predicate PlainField(field: string) {
    Without(field, QUOTE) && Trim(field) == field
  }

  /** Inside quotes everything up to the closing quote belongs to the field. */
  lemma {:induction false} InsideQuotes(field: string, tail: string)
    requires Without(field, QUOTE)
    ensures RawFields(field + [QUOTE] + tail, true) == Pending(field + [QUOTE], RawFields(tail, false))
  {
    var s := field + [QUOTE] + tail;
    if field == "" {
      assert s[1..] == tail;
      assert "" + [QUOTE] == [QUOTE];
    } else {
      assert s[1..] == field[1..] + [QUOTE] + tail;
      InsideQuotes(field[1..], tail);
      var rest := RawFields(tail, false);
      assert [field[0]] + ((field[1..] + [QUOTE]) + rest[0]) == (field + [QUOTE]) + rest[0] by {
        assert field == [field[0]] + field[1..];
      }
    }
  }

  lemma QuotedFirst(field: string, tail: string)
    requires Without(field, QUOTE)
    ensures RawFields(Quoted(field) + tail, false) == Pending(Quoted(field), RawFields(tail, false))
  {
    var s := Quoted(field) + tail;
    assert s[1..] == field + [QUOTE] + tail;
    InsideQuotes(field, tail);
    var rest := RawFields(tail, false);
    assert [QUOTE] + ((field + [QUOTE]) + rest[0]) == Quoted(field) + rest[0];
  }

  lemma CleanQuoted(field: string)
    requires PlainField(field)
    ensures Clean(Quoted(field)) == field
  {
    TrimMatchesQuoted(field, QUOTE);
    TrimMatchesAbsent(field, QUOTE);
  }

  function QuotedAll(fields: seq<string>): (quoted: seq<string>)
    ensures |quoted| == |fields|
  {
    seq(|fields|, i requires 0 <= i < |fields| => Quoted(fields[i]))
  }

  lemma {:induction false} RawFieldsOfPrint(fields: seq<string>)
    requires fields != [] && forall i :: 0 <= i < |fields| ==> Without(fields[i], QUOTE)
    ensures RawFields(PrintCsv(fields), false) == QuotedAll(fields)
  {
    if |fields| == 1 {
      QuotedFirst(fields[0], "");
      assert Quoted(fields[0]) + "" == Quoted(fields[0]);
    } else {
      var tail := [COMMA] + PrintCsv(fields[1..]);
      QuotedFirst(fields[0], tail);
      RawFieldsOfPrint(fields[1..]);
      assert tail[1..] == PrintCsv(fields[1..]);
      assert PrintCsv(fields) == Quoted(fields[0]) + tail;
      assert Quoted(fields[0]) + "" == Quoted(fields[0]);
    }
  }

  /** Splitting undoes quoting and joining, for every non-empty list of plain fields. */
  lemma {:induction false} CsvRoundTrip(fields: seq<string>)
    requires fields != [] && forall i :: 0 <= i < |fields| ==> PlainField(fields[i])
    ensures CleanAll(RawFields(PrintCsv(fields), false)) == fields
  {
    RawFieldsOfPrint(fields);
    forall i | 0 <= i < |fields| ensures CleanAll(QuotedAll(fields))[i] == fields[i] {
      CleanQuoted(fields[i]);
    }
  }

  // ----- What cleaning takes off a field -----

  /** Quotes at the ends go first, then the white space inside them. */
  lemma {:induction false} CleanTrimsInside(field: string)
    requires Without(field, QUOTE)
    ensures Clean(Quoted(field)) == Trim(field)
  {
    TrimMatchesQuoted(field, QUOTE);
    TrimMatchesAbsent(field, QUOTE);
  }

  lemma SpaceInFront(space: char, s: string)
    requires IsSpace(space) && s != "" && !IsSpace(s[0]) && !IsSpace(s[|s| - 1])
    ensures Trim([space] + s) == s
  {
    assert ([space] + s)[1..] == s;
    TrimmedIsFixed(s);
  }

  /** White space in front of the quotes keeps the first one. */
  lemma {:induction false} SpaceKeepsQuote(space: char, field: string)
    requires IsSpace(space) && PlainField(field) && field != "" && field[0] != QUOTE
    ensures Clean([space] + Quoted(field)) == [QUOTE] + field
  {
    var s := [space] + [QUOTE] + field;
    assert [space] + Quoted(field) == s + [QUOTE];
    TrimMatchesTail(s, QUOTE);
    assert TrimMatches(s, QUOTE) == s;
    TrimIsTidy(field);
    assert s == [space] + ([QUOTE] + field);
    SpaceInFront(space, [QUOTE] + field);
  }
}
